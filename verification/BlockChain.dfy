/**
  BlockChain of core/blockchain.go: blocks are stored with their total difficulty; when
  a block beats the head, the canonical number index and the transaction lookup table
  are moved over to its chain.
 */
module BlockChain {
  import opened Options
  import opened ChainTree
  import HeaderChain

  type Tx = nat

  datatype Block = Block(header: Header, txs: seq<Tx>)
  type Blocks = map<Hash, Block>

  /** Position of a transaction: block hash, block number, index in the block. */
  datatype Entry = Entry(block: Hash, number: nat, index: nat)
  type Lookup = map<Tx, Entry>

  function HeadersOf(blocks: Blocks): Headers {
    map h | h in blocks :: blocks[h].header
  }

  lemma HeadersOfAdd(blocks: Blocks, block: Block)
    ensures HeadersOf(blocks[block.header.hash := block]) == HeadersOf(blocks)[block.header.hash := block.header]
  {
  }

  // ---------- Transactions of a chain ----------

  /** Transaction t is the i-th of the block at number n of the chain p. */
  predicate At(blocks: Blocks, p: seq<Hash>, n: nat, i: nat, t: Tx) {
    n < |p| && p[n] in blocks && i < |blocks[p[n]].txs| && blocks[p[n]].txs[i] == t
  }

  /** A transaction occurs at most once in the chain p. */
  ghost predicate NoRepeat(blocks: Blocks, p: seq<Hash>) {
    forall n: nat, i: nat, m: nat, j: nat, t: Tx {:trigger At(blocks, p, n, i, t), At(blocks, p, m, j, t)} |
      At(blocks, p, n, i, t) && At(blocks, p, m, j, t) :: n == m && i == j
  }

  /** The table holds exactly the transactions of the chain p, at their right positions. */
  ghost predicate LookupIs(lookup: Lookup, blocks: Blocks, p: seq<Hash>) {
    && (forall n: nat, i: nat, t: Tx {:trigger At(blocks, p, n, i, t)} | At(blocks, p, n, i, t) ::
          t in lookup && lookup[t] == Entry(p[n], n, i))
    && (forall t {:trigger lookup[t]} | t in lookup ::
          At(blocks, p, lookup[t].number, lookup[t].index, t) && lookup[t].block == p[lookup[t].number])
  }

  /** e is a position of t in the block. */
  predicate Points(e: Entry, block: Block, t: Tx) {
    e.block == block.header.hash && e.number == block.header.number && e.index < |block.txs| && block.txs[e.index] == t
  }

  /** The table r is l with the transactions of one block entered, over older entries. */
  ghost predicate Entered(l: Lookup, r: Lookup, block: Block) {
    && (forall t {:trigger t in r} :: t in r <==> t in l || t in block.txs)
    && (forall t {:trigger r[t]} | t in r ::
          if t in block.txs then Points(r[t], block, t) else r[t] == l[t])
  }

  /** WriteTxLookupEntries. */
  method WriteTxLookupEntries(lookup: Lookup, block: Block) returns (r: Lookup)
    ensures Entered(lookup, r, block)
  {
    r := lookup;
    for i := 0 to |block.txs|
      invariant Entered(lookup, r, Block(block.header, block.txs[..i]))
    {
      var tx := block.txs[i];
      assert block.txs[..i + 1] == block.txs[..i] + [tx];
      r := r[tx := Entry(block.header.hash, block.header.number, i)];
    }
    assert block.txs[..|block.txs|] == block.txs;
  }

  /** Entering the transactions of a block on top of a chain. */
  lemma EnterHead(lookup: Lookup, r: Lookup, blocks: Blocks, p: seq<Hash>, block: Block)
    requires LookupIs(lookup, blocks, p) && Entered(lookup, r, block)
    requires block.header.hash !in blocks && block.header.number == |p|
    requires forall n | 0 <= n < |p| :: p[n] in blocks
    requires NoRepeat(blocks[block.header.hash := block], p + [block.header.hash])
    ensures LookupIs(r, blocks[block.header.hash := block], p + [block.header.hash])
  {
    var blocks', p' := blocks[block.header.hash := block], p + [block.header.hash];
    forall n: nat, i: nat, t: Tx | At(blocks', p', n, i, t)
      ensures t in r && r[t] == Entry(p'[n], n, i)
    {
      if n < |p| {
        assert At(blocks, p, n, i, t);
        if t in block.txs {
          var k :| 0 <= k < |block.txs| && block.txs[k] == t;
          assert At(blocks', p', |p|, k, t);
        }
      } else {
        assert At(blocks', p', |p|, r[t].index, t);
      }
    }
    forall t | t in r
      ensures At(blocks', p', r[t].number, r[t].index, t) && r[t].block == p'[r[t].number]
    {
      if t !in block.txs {
        assert At(blocks, p, lookup[t].number, lookup[t].index, t);
      }
    }
  }

  // ---------- Moving the table from one chain to another ----------

  /** All transactions of a list of blocks. */
  function TxsOf(chain: seq<Block>): seq<Tx> {
    if chain == [] then [] else TxsOf(chain[..|chain| - 1]) + chain[|chain| - 1].txs
  }

  lemma {:induction false} TxsOfContains(chain: seq<Block>, k: nat, t: Tx)
    requires k < |chain| && t in chain[k].txs
    ensures t in TxsOf(chain)
  {
    if k < |chain| - 1 {
      TxsOfContains(chain[..|chain| - 1], k, t);
    }
  }

  lemma {:induction false} TxsOfFrom(chain: seq<Block>, t: Tx) returns (k: nat)
    requires t in TxsOf(chain)
    ensures k < |chain| && t in chain[k].txs
  {
    var last := |chain| - 1;
    if t in chain[last].txs {
      k := last;
    } else {
      k := TxsOfFrom(chain[..last], t);
    }
  }

  lemma TxsOfOneMore(chain: seq<Block>, k: nat)
    requires k < |chain|
    ensures chain[..k + 1] == chain[..k] + [chain[k]]
    ensures TxsOf(chain[..k + 1]) == TxsOf(chain[..k]) + chain[k].txs
  {
    assert chain[..k + 1][..k] == chain[..k];
  }

  /** The blocks of the chain p from its head down to above number c. */
  predicate Walked(blocks: Blocks, chain: seq<Block>, p: seq<Hash>, c: nat) {
    && c < |p| && |chain| == |p| - 1 - c
    && forall i {:trigger chain[i]} | 0 <= i < |chain| :: IsBlockAt(blocks, chain[i], p, |p| - 1 - i)
  }

  predicate IsBlockAt(blocks: Blocks, block: Block, p: seq<Hash>, n: int) {
    0 <= n < |p| && p[n] in blocks && blocks[p[n]] == block
  }

  /** The blocks of a branch carry the hash and number of their place on the chain p. */
  predicate Labelled(chain: seq<Block>, p: seq<Hash>) {
    |chain| <= |p| &&
    forall k {:trigger chain[k]} | 0 <= k < |chain| ::
      chain[k].header.hash == p[|p| - 1 - k] && chain[k].header.number == |p| - 1 - k
  }

  lemma {:induction false} WalkedHas(blocks: Blocks, chain: seq<Block>, p: seq<Hash>, c: nat, n: nat, i: nat, t: Tx)
    requires Walked(blocks, chain, p, c) && c < n && At(blocks, p, n, i, t)
    ensures t in TxsOf(chain)
  {
    var k := |p| - 1 - n;
    assert chain[k] == blocks[p[|p| - 1 - k]];
    TxsOfContains(chain, k, t);
  }

  lemma {:induction false} WalkedFrom(blocks: Blocks, chain: seq<Block>, p: seq<Hash>, c: nat, t: Tx)
      returns (n: nat, i: nat)
    requires Walked(blocks, chain, p, c) && t in TxsOf(chain)
    ensures c < n && At(blocks, p, n, i, t)
  {
    var k := TxsOfFrom(chain, t);
    n := |p| - 1 - k;
    i :| 0 <= i < |chain[k].txs| && chain[k].txs[i] == t;
  }

  ghost predicate PointsInto(e: Entry, chain: seq<Block>, t: Tx) {
    exists k | 0 <= k < |chain| :: Points(e, chain[k], t)
  }

  /** The table r is l with the transactions of all blocks of the chain entered. */
  ghost predicate EnteredAll(l: Lookup, r: Lookup, chain: seq<Block>) {
    && (forall t {:trigger t in r} :: t in r <==> t in l || t in TxsOf(chain))
    && (forall t {:trigger r[t]} | t in r ::
          if t in TxsOf(chain) then PointsInto(r[t], chain, t) else r[t] == l[t])
  }

  lemma EnteredOneMore(l: Lookup, r: Lookup, r': Lookup, chain: seq<Block>, block: Block)
    requires EnteredAll(l, r, chain) && Entered(r, r', block)
    ensures EnteredAll(l, r', chain + [block])
  {
    var chain' := chain + [block];
    assert chain'[..|chain|] == chain;
    assert TxsOf(chain') == TxsOf(chain) + block.txs;
    forall t | t in r'
      ensures if t in TxsOf(chain') then PointsInto(r'[t], chain', t) else r'[t] == l[t]
    {
      if t in block.txs {
        assert Points(r'[t], chain'[|chain|], t);
      } else if t in TxsOf(chain) {
        assert r'[t] == r[t];
        var k :| 0 <= k < |chain| && Points(r[t], chain[k], t);
        assert Points(r'[t], chain'[k], t);
      }
    }
  }

  /** A transaction that is gone with the old branch and not added by the new one. */
  predicate Dropped(gone: seq<Tx>, added: seq<Tx>, t: Tx) {
    t in gone && t !in added
  }

  /** Two chains that agree up to number c, the new one reaching into a larger store. */
  ghost predicate Fork(blocks: Blocks, blocks': Blocks, q: seq<Hash>, p: seq<Hash>, c: nat) {
    && c < |p| && c < |q| && p[..c + 1] == q[..c + 1]
    && (forall h | h in blocks :: h in blocks' && blocks'[h] == blocks[h])
    && (forall n | 0 <= n < |q| :: q[n] in blocks)
  }

  lemma CommonPart(blocks: Blocks, blocks': Blocks, q: seq<Hash>, p: seq<Hash>, c: nat, n: nat, i: nat, t: Tx)
    requires Fork(blocks, blocks', q, p, c) && n <= c
    ensures p[n] == q[n] && (At(blocks', p, n, i, t) <==> At(blocks, q, n, i, t))
  {
    assert p[n] == p[..c + 1][n] == q[..c + 1][n] == q[n];
  }

  /** What the table of the new chain says about one transaction that is on it. */
  lemma {:induction false} ReorgEnters(l: Lookup, r: Lookup, blocks: Blocks, blocks': Blocks, q: seq<Hash>,
                                       p: seq<Hash>, c: nat,
                                       newChain: seq<Block>, n: nat, i: nat, t: Tx)
    requires Fork(blocks, blocks', q, p, c) && LookupIs(l, blocks, q) && NoRepeat(blocks', p)
    requires Walked(blocks', newChain, p, c) && EnteredAll(l, r, newChain)
    requires Labelled(newChain, p)
    requires At(blocks', p, n, i, t)
    ensures t in r && r[t] == Entry(p[n], n, i)
  {
    if n <= c {
      CommonPart(blocks, blocks', q, p, c, n, i, t);
      if t in TxsOf(newChain) {
        var m, j := WalkedFrom(blocks', newChain, p, c, t);
      }
    } else {
      WalkedHas(blocks', newChain, p, c, n, i, t);
      var k :| 0 <= k < |newChain| && Points(r[t], newChain[k], t);
      assert At(blocks', p, |p| - 1 - k, r[t].index, t);
    }
  }

  /**
    Entering the new chain's blocks over the old table, and deleting what only the old
    branch had, gives exactly the table of the new chain.
   */
  lemma {:induction false} ReorgMovesTable(l: Lookup, r: Lookup, s: Lookup, blocks: Blocks, blocks': Blocks,
                                           q: seq<Hash>, p: seq<Hash>, c: nat,
                                           oldChain: seq<Block>, newChain: seq<Block>)
    requires Fork(blocks, blocks', q, p, c) && LookupIs(l, blocks, q) && NoRepeat(blocks, q) && NoRepeat(blocks', p)
    requires Walked(blocks, oldChain, q, c) && Walked(blocks', newChain, p, c) && EnteredAll(l, r, newChain)
    requires Labelled(newChain, p)
    requires forall t :: t in s <==> t in r && !Dropped(TxsOf(oldChain), TxsOf(newChain), t)
    requires forall t | t in s :: s[t] == r[t]
    ensures LookupIs(s, blocks', p)
  {
    forall n: nat, i: nat, t: Tx | At(blocks', p, n, i, t)
      ensures t in s && s[t] == Entry(p[n], n, i)
    {
      ReorgEnters(l, r, blocks, blocks', q, p, c, newChain, n, i, t);
      NotDropped(blocks, blocks', q, p, c, oldChain, newChain, n, i, t);
    }
    forall t | t in s
      ensures At(blocks', p, s[t].number, s[t].index, t) && s[t].block == p[s[t].number]
    {
      if t in TxsOf(newChain) {
        var k :| 0 <= k < |newChain| && Points(r[t], newChain[k], t);
        assert blocks'[p[|p| - 1 - k]] == newChain[k];
      } else {
        assert l[t] == r[t];
        StaysInCommonPart(l, blocks, q, c, oldChain, t);
        CommonPart(blocks, blocks', q, p, c, l[t].number, l[t].index, t);
      }
    }
  }

  /** What is on the new chain is not deleted. */
  lemma {:induction false} NotDropped(blocks: Blocks, blocks': Blocks, q: seq<Hash>, p: seq<Hash>, c: nat,
                                      oldChain: seq<Block>, newChain: seq<Block>, n: nat, i: nat, t: Tx)
    requires Fork(blocks, blocks', q, p, c) && NoRepeat(blocks, q)
    requires Walked(blocks, oldChain, q, c) && Walked(blocks', newChain, p, c)
    requires At(blocks', p, n, i, t)
    ensures !Dropped(TxsOf(oldChain), TxsOf(newChain), t)
  {
    if n > c {
      WalkedHas(blocks', newChain, p, c, n, i, t);
    } else if t in TxsOf(oldChain) {
      CommonPart(blocks, blocks', q, p, c, n, i, t);
      var m, j := WalkedFrom(blocks, oldChain, q, c, t);
    }
  }

  /** An old transaction that is not of the old branch is below the fork. */
  lemma {:induction false} StaysInCommonPart(l: Lookup, blocks: Blocks, q: seq<Hash>, c: nat, oldChain: seq<Block>,
                                             t: Tx)
    requires LookupIs(l, blocks, q) && Walked(blocks, oldChain, q, c) && t in l && t !in TxsOf(oldChain)
    ensures At(blocks, q, l[t].number, l[t].index, t) && l[t].number <= c && l[t].block == q[l[t].number]
  {
    if l[t].number > c {
      WalkedHas(blocks, oldChain, q, c, l[t].number, l[t].index, t);
    }
  }

  // ---------- The canonical index ----------

  /** The index agrees with the chain p; above p it may hold leftovers. */
  predicate CanonUpTo(canon: map<nat, Hash>, p: seq<Hash>) {
    forall n | 0 <= n < |p| :: n in canon && canon[n] == p[n]
  }

  predicate Changed(canon: map<nat, Hash>, p: seq<Hash>, n: nat)
    requires n < |p|
  {
    !(n in canon && canon[n] == p[n])
  }

  /** The lowest number from lo on at which the chain p is not yet in the index. */
  function LowestChanged(canon: map<nat, Hash>, p: seq<Hash>, lo: nat): (n: nat)
    requires lo < |p| && Changed(canon, p, |p| - 1)
    ensures lo <= n < |p| && Changed(canon, p, n)
    ensures forall k | lo <= k < n :: !Changed(canon, p, k)
    decreases |p| - lo
  {
    if Changed(canon, p, lo) then lo else LowestChanged(canon, p, lo + 1)
  }

  /** The index after the numbers from lo up have been pointed at the chain p. */
  ghost predicate Rewritten(canon: map<nat, Hash>, canon': map<nat, Hash>, p: seq<Hash>, lo: nat) {
    && (forall n: nat :: n in canon' <==> n in canon || lo <= n < |p|)
    && forall n | n in canon' :: canon'[n] == if lo <= n < |p| then p[n] else canon[n]
  }

  lemma RewrittenOneMore(canon: map<nat, Hash>, canon': map<nat, Hash>, p: seq<Hash>, lo: nat)
    requires Rewritten(canon, canon', p, lo) && 0 < lo <= |p|
    ensures Rewritten(canon, canon'[lo - 1 := p[lo - 1]], p, lo - 1)
    ensures Changed(canon', p, lo - 1) <==> Changed(canon, p, lo - 1)
  {
  }

  /** The other heads follow the lowest number that was not in the index. */
  lemma HeadsOneMore(canon: map<nat, Hash>, canon': map<nat, Hash>, p: seq<Hash>, lo: nat, head: Hash, head': Hash)
    requires 0 < lo <= |p| && Changed(canon, p, |p| - 1) && (lo < |p| ==> head == p[LowestChanged(canon, p, lo)])
    requires Changed(canon', p, lo - 1) <==> Changed(canon, p, lo - 1)
    requires head' == if Changed(canon', p, lo - 1) then p[lo - 1] else head
    ensures head' == p[LowestChanged(canon, p, lo - 1)]
  {
  }

  lemma RewrittenCovers(canon: map<nat, Hash>, canon': map<nat, Hash>, q: seq<Hash>, p: seq<Hash>, c: nat)
    requires CanonUpTo(canon, q) && Rewritten(canon, canon', p, c + 1)
    requires c < |p| && c < |q| && p[..c + 1] == q[..c + 1]
    ensures CanonUpTo(canon', p)
  {
    assert forall n | 0 <= n <= c :: p[n] == p[..c + 1][n] == q[n];
  }

  // ---------- Walking down from two heads ----------

  /** Block b is stored and on the chain of h. */
  ghost predicate OnChain(blocks: Blocks, genesis: Hash, h: Hash, b: Block)
    requires Linked(HeadersOf(blocks), genesis) && h in blocks
  {
    b.header.hash in blocks && blocks[b.header.hash] == b && IsAncestor(HeadersOf(blocks), genesis, h, b.header)
  }

  ghost function Chain(blocks: Blocks, genesis: Hash, h: Hash): seq<Hash>
    requires Linked(HeadersOf(blocks), genesis) && h in blocks
  {
    Path(HeadersOf(blocks), genesis, h)
  }

  lemma {:induction false} WalkDown(blocks: Blocks, genesis: Hash, h: Hash, b: Block, chain: seq<Block>)
    requires Linked(HeadersOf(blocks), genesis) && h in blocks && OnChain(blocks, genesis, h, b) && b.header.number > 0
    requires Walked(blocks, chain, Chain(blocks, genesis, h), b.header.number)
    ensures b.header.parent in blocks && blocks[b.header.parent].header.number == b.header.number - 1
    ensures blocks[b.header.parent].header.hash == b.header.parent
    ensures OnChain(blocks, genesis, h, blocks[b.header.parent])
    ensures Walked(blocks, chain + [b], Chain(blocks, genesis, h), b.header.number - 1)
    ensures TxsOf(chain + [b]) == TxsOf(chain) + b.txs
  {
    ParentIsAncestor(HeadersOf(blocks), genesis, h, b.header);
    assert HeaderOk(HeadersOf(blocks), genesis, b.header.parent);
    assert (chain + [b])[..|chain|] == chain;
    WalkedOneMore(blocks, chain, Chain(blocks, genesis, h), b, b.header.number);
  }

  lemma WalkedOneMore(blocks: Blocks, chain: seq<Block>, p: seq<Hash>, b: Block, n: nat)
    requires Walked(blocks, chain, p, n) && n > 0 && p[n] in blocks && blocks[p[n]] == b
    ensures Walked(blocks, chain + [b], p, n - 1)
  {
    var chain' := chain + [b];
    forall i {:trigger chain'[i]} | 0 <= i < |chain'|
      ensures IsBlockAt(blocks, chain'[i], p, |p| - 1 - i)
    {
      if i < |chain| {
        assert chain'[i] == chain[i];
      } else {
        assert |p| - 1 - i == n;
      }
    }
  }

  lemma HeadOnChain(blocks: Blocks, genesis: Hash, h: Hash)
    requires Linked(HeadersOf(blocks), genesis) && h in blocks
    ensures OnChain(blocks, genesis, h, blocks[h])
    ensures Walked(blocks, [], Chain(blocks, genesis, h), blocks[h].header.number)
    ensures blocks[h].header.hash == h
  {
    IsOwnAncestor(HeadersOf(blocks), genesis, h);
  }

  /** GetBlock. */
  function GetBlock(blocks: Blocks, hash: Hash): Option<Block> {
    if hash in blocks then Some(blocks[hash]) else None
  }

  /** The old and the new branch, down to the last common block. */
  ghost predicate Branches(blocks: Blocks, genesis: Hash, oldHash: Hash, newHash: Hash, common: Block,
                           oldChain: seq<Block>, newChain: seq<Block>)
    requires Linked(HeadersOf(blocks), genesis) && oldHash in blocks && newHash in blocks
  {
    && OnChain(blocks, genesis, oldHash, common) && OnChain(blocks, genesis, newHash, common)
    && Walked(blocks, oldChain, Chain(blocks, genesis, oldHash), common.header.number)
    && Walked(blocks, newChain, Chain(blocks, genesis, newHash), common.header.number)
    && PartedFrom(HeadersOf(blocks), genesis, oldHash, newHash, common.header.number + 1)
  }

  /**
    The first half of reorg. The new head is not stored yet: `all` is the store with it.
    In a linked tree neither chain ends before the common block, so reorg cannot fail.
   */
  method FindBranches(blocks: Blocks, ghost all: Blocks, ghost genesis: Hash, oldHead: Block, newHead: Block)
      returns (common: Option<Block>, oldChain: seq<Block>, newChain: seq<Block>, deleted: seq<Tx>)
    requires all == blocks[newHead.header.hash := newHead] && newHead.header.hash !in blocks
    requires Linked(HeadersOf(blocks), genesis) && Linked(HeadersOf(all), genesis)
    requires oldHead.header.hash in blocks && blocks[oldHead.header.hash] == oldHead
    ensures common.Some? && deleted == TxsOf(oldChain)
    ensures Branches(all, genesis, oldHead.header.hash, newHead.header.hash, common.value, oldChain, newChain)
  {
    ghost var a, b := oldHead.header.hash, newHead.header.hash;
    var older, newer := Some(oldHead), Some(newHead);
    oldChain, newChain, deleted := [], [], [];
    HeadOnChain(all, genesis, a);
    HeadOnChain(all, genesis, b);
    if oldHead.header.number > newHead.header.number {
      while older.Some? && older.value.header.number != newHead.header.number
        invariant older.Some? && OnChain(all, genesis, a, older.value)
        invariant older.value.header.number >= newHead.header.number
        invariant Walked(all, oldChain, Chain(all, genesis, a), older.value.header.number) && deleted == TxsOf(oldChain)
        invariant older.value.header.hash in blocks
        decreases older.value.header.number
      {
        WalkDown(all, genesis, a, older.value, oldChain);
        ParentStored(blocks, genesis, older.value.header.hash);
        oldChain := oldChain + [older.value];
        deleted := deleted + older.value.txs;
        older := GetBlock(blocks, older.value.header.parent);
      }
    } else {
      while newer.Some? && newer.value.header.number != oldHead.header.number
        invariant newer.Some? && OnChain(all, genesis, b, newer.value)
        invariant newer.value.header.number >= oldHead.header.number
        invariant newer.value.header.number <= newHead.header.number
        invariant Walked(all, newChain, Chain(all, genesis, b), newer.value.header.number)
        decreases newer.value.header.number
      {
        WalkDown(all, genesis, b, newer.value, newChain);
        StoredBelow(blocks, all, newHead, newer.value.header.parent);
        newChain := newChain + [newer.value];
        newer := GetBlock(blocks, newer.value.header.parent);
      }
    }
    common, oldChain, newChain, deleted :=
      MeetBelow(blocks, all, genesis, a, newHead, older.value, newer.value, oldChain, newChain, deleted);
  }

  lemma ParentStored(blocks: Blocks, genesis: Hash, h: Hash)
    requires Linked(HeadersOf(blocks), genesis) && h in blocks && blocks[h].header.number > 0
    ensures blocks[h].header.parent in blocks
  {
    assert HeaderOk(HeadersOf(blocks), genesis, h);
  }

  lemma StoredBelow(blocks: Blocks, all: Blocks, newHead: Block, h: Hash)
    requires all == blocks[newHead.header.hash := newHead] && h in all && all[h].header.number < newHead.header.number
    ensures h in blocks && blocks[h] == all[h]
  {
  }

  /** The walk from two blocks of equal number to the common one. */
  method MeetBelow(blocks: Blocks, ghost all: Blocks, ghost genesis: Hash, ghost oldHash: Hash, newHead: Block,
                   older: Block, newer: Block, oldSoFar: seq<Block>, newSoFar: seq<Block>, deletedSoFar: seq<Tx>)
      returns (common: Option<Block>, oldChain: seq<Block>, newChain: seq<Block>, deleted: seq<Tx>)
    requires all == blocks[newHead.header.hash := newHead] && Linked(HeadersOf(all), genesis) && oldHash in all
    requires older.header.number == newer.header.number <= newHead.header.number
    requires older.header.number == all[oldHash].header.number || newer.header.number == newHead.header.number
    requires OnChain(all, genesis, oldHash, older) && OnChain(all, genesis, newHead.header.hash, newer)
    requires Walked(all, oldSoFar, Chain(all, genesis, oldHash), older.header.number) && deletedSoFar == TxsOf(oldSoFar)
    requires Walked(all, newSoFar, Chain(all, genesis, newHead.header.hash), newer.header.number)
    ensures common.Some? && deleted == TxsOf(oldChain)
    ensures Branches(all, genesis, oldHash, newHead.header.hash, common.value, oldChain, newChain)
  {
    ghost var b := newHead.header.hash;
    var x, y := older, newer;
    oldChain, newChain, deleted := oldSoFar, newSoFar, deletedSoFar;
    while x.header.hash != y.header.hash
      invariant x.header.number == y.header.number <= newHead.header.number
      invariant OnChain(all, genesis, oldHash, x) && OnChain(all, genesis, b, y)
      invariant Walked(all, oldChain, Chain(all, genesis, oldHash), x.header.number) && deleted == TxsOf(oldChain)
      invariant Walked(all, newChain, Chain(all, genesis, b), y.header.number)
      invariant PartedFrom(HeadersOf(all), genesis, oldHash, b, x.header.number + 1)
      decreases x.header.number
    {
      PartsBelow(HeadersOf(all), genesis, oldHash, b, x.header, y.header);
      WalkDown(all, genesis, oldHash, x, oldChain);
      WalkDown(all, genesis, b, y, newChain);
      StoredBelow(blocks, all, newHead, x.header.parent);
      StoredBelow(blocks, all, newHead, y.header.parent);
      oldChain := oldChain + [x];
      newChain := newChain + [y];
      deleted := deleted + x.txs;
      var nextOld, nextNew := GetBlock(blocks, x.header.parent), GetBlock(blocks, y.header.parent);
      if nextOld.None? || nextNew.None? {
        return None, oldChain, newChain, deleted;
      }
      x, y := nextOld.value, nextNew.value;
    }
    common := Some(x);
  }

  // ---------- The block chain ----------

  /** types.TxDifference: what of a is not in b. */
  function TxDifference(a: seq<Tx>, b: seq<Tx>): (r: seq<Tx>)
    ensures forall t :: t in r <==> Dropped(a, b, t)
  {
    if a == [] then []
    else if a[0] in b then TxDifference(a[1..], b)
    else [a[0]] + TxDifference(a[1..], b)
  }

  /** DeleteTxLookupEntry for each of a list of transactions. */
  method DeleteTxLookupEntries(lookup: Lookup, txs: seq<Tx>) returns (r: Lookup)
    ensures forall t :: t in r <==> t in lookup && t !in txs
    ensures forall t | t in r :: r[t] == lookup[t]
  {
    r := lookup;
    for i := 0 to |txs|
      invariant forall t :: t in r <==> t in lookup && t !in txs[..i]
      invariant forall t | t in r :: r[t] == lookup[t]
    {
      assert txs[..i + 1] == txs[..i] + [txs[i]];
      r := r - {txs[i]};
    }
    assert txs[..|txs|] == txs;
  }

  class BlockChain {
    const genesis: Hash
    var blocks: Blocks
    var tds: map<Hash, int>
    var canon: map<nat, Hash>
    var current: Block
    var headHeader: Hash
    var headFast: Hash
    var lookup: Lookup

    /** Total difficulties of blocks that failed to be stored may linger; they are not in view. */
    ghost function V(): HeaderChain.View
      reads this`blocks, this`tds, this`current
    {
      HeaderChain.View(HeadersOf(blocks), TdsOf(blocks, tds), current.header.hash)
    }

    /** The head has the highest total difficulty; index and table belong to its chain. */
    ghost predicate Valid()
      reads this
    {
      && HeaderChain.Good(V(), genesis)
      && IsHead(current, blocks) && IndexStored(canon, blocks)
      && Reflects(canon, lookup, blocks, Chain(blocks, genesis, current.header.hash))
    }

    /** The chain of the head block. */
    ghost function HeadChain(): seq<Hash>
      requires Valid()
      reads this
    {
      Chain(blocks, genesis, current.header.hash)
    }

    constructor (header: Header, td: int)
      requires header.number == 0 && header.parent == NO_HASH && header.hash != NO_HASH
      ensures Valid() && genesis == header.hash && current == Block(header, [])
      ensures headHeader == headFast == header.hash
      ensures blocks == map[header.hash := Block(header, [])] && tds == map[header.hash := td]
      ensures canon == map[0 := header.hash]
    {
      genesis := header.hash;
      blocks, tds, canon := map[header.hash := Block(header, [])], map[header.hash := td], map[0 := header.hash];
      current, headHeader, headFast := Block(header, []), header.hash, header.hash;
      lookup := map[];
    }

    /** insert: the other heads follow only if the block is not in the index already. */
    method InsertHead(block: Block, force: bool)
      modifies this`canon, this`current, this`headHeader, this`headFast
      ensures canon == old(canon)[block.header.number := block.header.hash] && current == block
      ensures var update :=
                force || !(block.header.number in old(canon) && old(canon)[block.header.number] == block.header.hash);
              && headHeader == (if update then block.header.hash else old(headHeader))
              && headFast == (if update then block.header.hash else old(headFast))
    {
      var updateHeads := !(block.header.number in canon && canon[block.header.number] == block.header.hash);
      canon := canon[block.header.number := block.header.hash];
      current := block;
      if updateHeads || force {
        headHeader := block.header.hash;
        headFast := block.header.hash;
      }
    }

    /** One block of the new branch goes into index and table; the other heads follow if it was not in the index. */
    method AdoptOne(block: Block, ghost canon0: map<nat, Hash>, ghost lookup0: Lookup, ghost done: seq<Block>,
                    ghost p: seq<Hash>)
      requires |done| < |p| && Adopted(canon0, lookup0, canon, lookup, headHeader, headFast, done, p)
      requires block.header.number == |p| - |done| - 1 && block.header.hash == p[|p| - |done| - 1]
      modifies this`canon, this`current, this`headHeader, this`headFast, this`lookup
      ensures Adopted(canon0, lookup0, canon, lookup, headHeader, headFast, done + [block], p)
    {
      InsertHead(block, false);
      lookup := WriteTxLookupEntries(lookup, block);
      AdoptedOneMore(canon0, lookup0, old(canon), old(lookup), old(headHeader), old(headFast), done, p,
                     block, lookup, headHeader, headFast);
    }

    /** The second half of reorg: the new branch is inserted from its head down to the fork. */
    method Adopt(newChain: seq<Block>, ghost p: seq<Hash>) returns (added: seq<Tx>)
      requires |newChain| < |p| && Labelled(newChain, p) && Changed(canon, p, |p| - 1)
      modifies this`canon, this`current, this`headHeader, this`headFast, this`lookup
      ensures added == TxsOf(newChain)
      ensures Adopted(old(canon), old(lookup), canon, lookup, headHeader, headFast, newChain, p)
    {
      added := [];
      ghost var canon0, lookup0, done := canon, lookup, [];
      for k := 0 to |newChain|
        invariant done == newChain[..k] && added == TxsOf(done)
        invariant Adopted(canon0, lookup0, canon, lookup, headHeader, headFast, done, p)
      {
        assert done + [newChain[k]] == newChain[..k + 1] && added + newChain[k].txs == TxsOf(done + [newChain[k]]) by {
          TxsOfOneMore(newChain, k);
        }
        assert newChain[k].header.number == |p| - 1 - k;
        AdoptOne(newChain[k], canon0, lookup0, done, p);
        done := done + [newChain[k]];
        added := added + newChain[k].txs;
      }
      assert done == newChain;
    }

    /** The branches are switched and what only the old one had is dropped from the table. */
    method Switch(oldChain: seq<Block>, newChain: seq<Block>, deleted: seq<Tx>, ghost all: Blocks, ghost q: seq<Hash>,
                  ghost p: seq<Hash>, ghost fork: nat)
      requires Parting(blocks, all, q, p, fork, oldChain, newChain) && deleted == TxsOf(oldChain)
      requires Changed(canon, p, |p| - 1)
      requires Reflects(canon, lookup, blocks, q) && NoRepeat(all, p)
      modifies this`canon, this`current, this`headHeader, this`headFast, this`lookup
      ensures CanonUpTo(canon, p) && LookupIs(lookup, all, p)
      ensures SwitchedAt(old(canon), canon, headHeader, headFast, q, p, fork)
    {
      var added := Adopt(newChain, p);
      ghost var entered := lookup;
      lookup := DeleteTxLookupEntries(lookup, TxDifference(deleted, added));
      ReorgMovesTable(old(lookup), entered, lookup, blocks, all, q, p, fork, oldChain, newChain);
      RewrittenCovers(old(canon), canon, q, p, fork);
    }

    /** reorg: moves index and table from the chain of the head to that of newHead, which is not stored yet. */
    method Reorg(newHead: Block, ghost all: Blocks, ghost p: seq<Hash>, ghost q: seq<Hash>)
        returns (ok: bool, ghost fork: nat)
      requires Linked(HeadersOf(blocks), genesis) && IsHead(current, blocks) && IndexStored(canon, blocks)
      requires q == Chain(blocks, genesis, current.header.hash) && Reflects(canon, lookup, blocks, q)
      requires all == blocks[newHead.header.hash := newHead] && newHead.header.hash !in blocks
      requires Linked(HeadersOf(all), genesis) && p == Chain(all, genesis, newHead.header.hash) && NoRepeat(all, p)
      modifies this`canon, this`current, this`headHeader, this`headFast, this`lookup
      ensures ok && CanonUpTo(canon, p) && LookupIs(lookup, all, p)
      ensures SwitchedAt(old(canon), canon, headHeader, headFast, q, p, fork)
    {
      ok, fork := false, 0;
      var common, oldChain, newChain, deleted := FindBranches(blocks, all, genesis, current, newHead);
      if common.None? {
        return;
      }
      fork := common.value.header.number;
      BranchFacts(blocks, all, genesis, current, newHead, common.value, oldChain, newChain);
      NewHeadChanges(blocks, canon, p, newHead);
      Switch(oldChain, newChain, deleted, all, q, p, fork);
      ok := true;
    }

    /** The part of WriteBlockAndState that makes the block the head of the index and the table. */
    method Promote(block: Block, ghost all: Blocks, ghost p: seq<Hash>, ghost q: seq<Hash>) returns (ghost fork: nat)
      requires Linked(HeadersOf(blocks), genesis) && IsHead(current, blocks) && IndexStored(canon, blocks)
      requires q == Chain(blocks, genesis, current.header.hash) && Reflects(canon, lookup, blocks, q)
      requires all == blocks[block.header.hash := block] && block.header.hash !in blocks
      requires Linked(HeadersOf(all), genesis) && p == Chain(all, genesis, block.header.hash) && NoRepeat(all, p)
      modifies this`canon, this`current, this`headHeader, this`headFast, this`lookup
      ensures current == block && CanonUpTo(canon, p) && LookupIs(lookup, all, p)
      ensures SwitchedAt(old(canon), canon, headHeader, headFast, q, p, fork)
    {
      if block.header.parent != current.header.hash {
        var ok;
        ok, fork := Reorg(block, all, p, q);
        ghost var before := lookup;
        lookup := WriteTxLookupEntries(lookup, block);
        EnterAgain(before, lookup, all, p, block);
        InsertedAlready(old(canon), canon, headHeader, headFast, q, p, fork, block);
      } else {
        fork := |q| - 1;
        ChainGrows(blocks, genesis, block);
        ChainStored(blocks, genesis, current.header.hash);
        lookup := WriteTxLookupEntries(lookup, block);
        EnterHead(old(lookup), lookup, blocks, q, block);
        NewHeadChanges(blocks, canon, p, block);
        ExtendsAt(canon, q, block);
      }
      InsertHead(block, false);
    }

    /** The block, with its total difficulty written already, is stored and becomes the head. */
    method StoreAsHead(block: Block, coin: bool) returns (ghost fork: nat)
      requires Valid() && Fresh(blocks, tds, genesis, block) && Beats(tds, current.header.hash, block.header.hash, coin)
      modifies this`blocks, this`canon, this`current, this`headHeader, this`headFast, this`lookup
      ensures Valid() && current == block
      ensures blocks == old(blocks)[block.header.hash := block]
      ensures V() == HeaderChain.Insert(old(V()), block.header, coin)
      ensures SwitchedAt(old(canon), canon, headHeader, headFast, old(HeadChain()), HeadChain(), fork)
    {
      ghost var q, all := HeadChain(), blocks[block.header.hash := block];
      ViewAfter(blocks, tds, genesis, current.header.hash, block, coin);
      fork := Promote(block, all, Chain(all, genesis, block.header.hash), q);
      blocks := blocks[block.header.hash := block];
      IndexStoredAfter(old(canon), canon, headHeader, headFast, q, fork, old(blocks), all, genesis, block.header.hash);
    }

    /** The block, with its total difficulty written already, is stored beside the head's chain. */
    method StoreOnSide(block: Block, coin: bool)
      requires Valid() && Fresh(blocks, tds, genesis, block)
      requires !Beats(tds, current.header.hash, block.header.hash, coin)
      modifies this`blocks
      ensures Valid() && HeadChain() == old(HeadChain())
      ensures blocks == old(blocks)[block.header.hash := block]
      ensures V() == HeaderChain.Insert(old(V()), block.header, coin)
    {
      ViewAfter(blocks, tds, genesis, current.header.hash, block, coin);
      SideStored(canon, lookup, blocks, blocks[block.header.hash := block], genesis, current.header.hash);
      blocks := blocks[block.header.hash := block];
    }

    /**
      WriteBlockAndState. A block whose parent is unknown is refused, a known one ignored;
      if its state does not commit, only its total difficulty is left behind. Otherwise it
      is stored, and it becomes the head if it has the higher total difficulty, or the same
      and the coin says so.
     */
    method WriteBlockAndState(block: Block, commits: bool, coin: bool)
        returns (status: HeaderChain.Status, ok: bool, ghost fork: nat)
      requires Valid() && Acceptable(blocks, tds, genesis, block)
      modifies this`blocks, this`tds, this`canon, this`current, this`headHeader, this`headFast, this`lookup
      ensures Valid()
      ensures ok <==> block.header.parent in old(tds) && (block.header.hash in old(blocks) || commits)
      ensures status == HeaderChain.NonStatTy <==> !ok || block.header.hash in old(blocks)
      ensures status == HeaderChain.NonStatTy ==> blocks == old(blocks) && V() == old(V())
      ensures status != HeaderChain.NonStatTy ==>
                && blocks == old(blocks)[block.header.hash := block]
                && V() == HeaderChain.Insert(old(V()), block.header, coin)
      ensures status != HeaderChain.CanonStatTy ==>
                && canon == old(canon) && lookup == old(lookup) && current == old(current)
                && headHeader == old(headHeader) && headFast == old(headFast)
      ensures status == HeaderChain.CanonStatTy ==>
                && current == block
                && SwitchedAt(old(canon), canon, headHeader, headFast, old(HeadChain()), HeadChain(), fork)
    {
      fork := 0;
      if block.header.parent !in tds {
        return HeaderChain.NonStatTy, false, 0;
      }
      if block.header.hash in blocks {
        return HeaderChain.NonStatTy, true, 0;
      }
      var localTd := tds[current.header.hash];
      var externTd := block.header.difficulty + tds[block.header.parent];
      StrayTd(blocks, tds, block.header.hash, externTd);
      tds := tds[block.header.hash := externTd];
      if !commits {
        return HeaderChain.NonStatTy, false, 0;
      }
      if externTd > localTd || (externTd == localTd && coin) {
        fork := StoreAsHead(block, coin);
        status := HeaderChain.CanonStatTy;
      } else {
        StoreOnSide(block, coin);
        status := HeaderChain.SideStatTy;
      }
      ok := true;
    }
  }

  /** The total difficulty of h wins over that of the head, with a coin for a tie. */
  predicate Beats(tds: map<Hash, int>, head: Hash, h: Hash, coin: bool)
    requires head in tds && h in tds
  {
    tds[h] > tds[head] || (tds[h] == tds[head] && coin)
  }

  /** An acceptable new block whose total difficulty is written. */
  ghost predicate Fresh(blocks: Blocks, tds: map<Hash, int>, genesis: Hash, block: Block)
    requires Linked(HeadersOf(blocks), genesis)
  {
    && block.header.hash !in blocks && block.header.hash in tds && block.header.parent in tds
    && tds[block.header.hash] == block.header.difficulty + tds[block.header.parent]
    && Acceptable(blocks, tds, genesis, block)
  }

  function TdsOf(blocks: Blocks, tds: map<Hash, int>): map<Hash, int> {
    map h | h in blocks && h in tds :: tds[h]
  }

  /**
    What the callers of WriteBlockAndState have checked: if the parent is known, the block is
    numbered one above it, and it brings no transaction a second time to its chain.
   */
  ghost predicate Acceptable(blocks: Blocks, tds: map<Hash, int>, genesis: Hash, block: Block)
    requires Linked(HeadersOf(blocks), genesis)
  {
    block.header.parent in tds && block.header.hash !in blocks ==>
      && CanAdd(HeadersOf(blocks), genesis, block.header)
      && var all := blocks[block.header.hash := block];
         Linked(HeadersOf(all), genesis) && NoRepeat(all, Chain(all, genesis, block.header.hash))
  }

  lemma StrayTd(blocks: Blocks, tds: map<Hash, int>, h: Hash, td: int)
    requires h !in blocks
    ensures TdsOf(blocks, tds[h := td]) == TdsOf(blocks, tds)
  {
  }

  /** Storing a block is HeaderChain's insertion of its header, and keeps the tree good. */
  lemma ViewAfter(blocks: Blocks, tds: map<Hash, int>, genesis: Hash, head: Hash, block: Block, coin: bool)
    requires HeaderChain.Good(HeaderChain.View(HeadersOf(blocks), TdsOf(blocks, tds), head), genesis)
    requires CanAdd(HeadersOf(blocks), genesis, block.header) && block.header.hash !in blocks
    requires block.header.hash in tds && block.header.parent in tds
    requires tds[block.header.hash] == block.header.difficulty + tds[block.header.parent]
    ensures head in tds
    ensures var v := HeaderChain.View(HeadersOf(blocks), TdsOf(blocks, tds), head);
            var all := blocks[block.header.hash := block];
            var head' := if Beats(tds, head, block.header.hash, coin) then block.header.hash else head;
            var w := HeaderChain.View(HeadersOf(all), TdsOf(all, tds), head');
            HeaderChain.Insert(v, block.header, coin) == w && HeaderChain.Good(w, genesis)
  {
    var v := HeaderChain.View(HeadersOf(blocks), TdsOf(blocks, tds), head);
    assert block.header.parent in v.tds && head in v.tds;
    var all := blocks[block.header.hash := block];
    HeadersOfAdd(blocks, block);
    assert TdsOf(all, tds) == v.tds[block.header.hash := tds[block.header.hash]];
    HeaderChain.InsertKeepsGood(v, genesis, block.header, coin);
  }

  lemma IndexStoredAfter(canon: map<nat, Hash>, canon': map<nat, Hash>, headHeader: Hash, headFast: Hash, q: seq<Hash>,
                         fork: nat,
                         blocks: Blocks, all: Blocks, genesis: Hash, h: Hash)
    requires IndexStored(canon, blocks) && (forall k | k in blocks :: k in all)
    requires Linked(HeadersOf(all), genesis) && h in all
    requires SwitchedAt(canon, canon', headHeader, headFast, q, Chain(all, genesis, h), fork)
    ensures IndexStored(canon', all)
  {
    ChainStored(all, genesis, h);
    var p := Chain(all, genesis, h);
    forall n | n in canon'
      ensures canon'[n] in all
    {
      if fork + 1 <= n < |p| {
        assert canon'[n] == p[n];
      } else {
        assert canon'[n] == canon[n];
      }
    }
  }

  /** A block stored on the side changes nothing for the chain of the head. */
  lemma SideStored(canon: map<nat, Hash>, lookup: Lookup, blocks: Blocks, all: Blocks, genesis: Hash, h: Hash)
    requires Linked(HeadersOf(blocks), genesis) && Linked(HeadersOf(all), genesis) && h in blocks
    requires forall k | k in blocks :: k in all && all[k] == blocks[k]
    requires Reflects(canon, lookup, blocks, Chain(blocks, genesis, h))
    ensures Chain(all, genesis, h) == Chain(blocks, genesis, h)
    ensures Reflects(canon, lookup, all, Chain(all, genesis, h))
  {
    PathStable(HeadersOf(blocks), HeadersOf(all), genesis, h);
    var q := Chain(blocks, genesis, h);
    ChainStored(blocks, genesis, h);
    forall n: nat, i: nat, t: Tx
      ensures At(all, q, n, i, t) <==> At(blocks, q, n, i, t)
    {
    }
  }

  lemma ChainGrows(blocks: Blocks, genesis: Hash, block: Block)
    requires Linked(HeadersOf(blocks), genesis) && block.header.hash !in blocks && block.header.parent in blocks
    requires var all := blocks[block.header.hash := block]; Linked(HeadersOf(all), genesis)
    ensures var all := blocks[block.header.hash := block];
            Chain(all, genesis, block.header.hash) == Chain(blocks, genesis, block.header.parent) + [block.header.hash]
  {
    var all := blocks[block.header.hash := block];
    assert HeaderOk(HeadersOf(all), genesis, block.header.hash);
    PathStable(HeadersOf(blocks), HeadersOf(all), genesis, block.header.parent);
  }

  lemma ChainStored(blocks: Blocks, genesis: Hash, h: Hash)
    requires Linked(HeadersOf(blocks), genesis) && h in blocks
    ensures forall n | 0 <= n < |Chain(blocks, genesis, h)| :: Chain(blocks, genesis, h)[n] in blocks
  {
    forall n | 0 <= n < |Chain(blocks, genesis, h)|
      ensures Chain(blocks, genesis, h)[n] in blocks
    {
      PathPrefix(HeadersOf(blocks), genesis, h, n);
    }
  }

  /** Entering the transactions of the head block a second time changes nothing. */
  lemma EnterAgain(l: Lookup, r: Lookup, all: Blocks, p: seq<Hash>, block: Block)
    requires LookupIs(l, all, p) && NoRepeat(all, p) && Entered(l, r, block)
    requires |p| > 0 && block.header.hash == p[|p| - 1] && p[|p| - 1] in all && all[p[|p| - 1]] == block
    requires block.header.number == |p| - 1
    ensures LookupIs(r, all, p)
  {
    forall n: nat, i: nat, t: Tx | At(all, p, n, i, t)
      ensures t in r && r[t] == Entry(p[n], n, i)
    {
      if t in block.txs {
        assert At(all, p, |p| - 1, r[t].index, t);
      }
    }
    forall t | t in r
      ensures At(all, p, r[t].number, r[t].index, t) && r[t].block == p[r[t].number]
    {
      if t !in block.txs {
        assert r[t] == l[t];
      }
    }
  }

  lemma InsertedAlready(canon: map<nat, Hash>, canon': map<nat, Hash>, headHeader: Hash, headFast: Hash, q: seq<Hash>,
                        p: seq<Hash>, fork: nat, block: Block)
    requires SwitchedAt(canon, canon', headHeader, headFast, q, p, fork)
    requires block.header.hash == p[|p| - 1] && block.header.number == |p| - 1
    ensures !Changed(canon', p, |p| - 1) && canon' == canon'[block.header.number := block.header.hash]
  {
  }

  lemma ExtendsAt(canon: map<nat, Hash>, q: seq<Hash>, block: Block)
    requires |q| > 0 && CanonUpTo(canon, q) && block.header.number == |q|
    requires Changed(canon, q + [block.header.hash], |q|)
    ensures var canon', p := canon[block.header.number := block.header.hash], q + [block.header.hash];
            SwitchedAt(canon, canon', block.header.hash, block.header.hash, q, p, |q| - 1) && CanonUpTo(canon', p)
  {
  }

  /**
    The blocks done, from the head of the chain p down, have been adopted: they are in
    index and table, and the other heads are at the lowest that was not in the index.
   */
  ghost predicate Adopted(canon0: map<nat, Hash>, lookup0: Lookup, canon: map<nat, Hash>, lookup: Lookup,
                          headHeader: Hash, headFast: Hash, done: seq<Block>, p: seq<Hash>) {
    && 0 < |p| && |done| <= |p| && Changed(canon0, p, |p| - 1)
    && Rewritten(canon0, canon, p, |p| - |done|) && EnteredAll(lookup0, lookup, done)
    && (done != [] ==> headHeader == headFast == p[LowestChanged(canon0, p, |p| - |done|)])
  }

  lemma AdoptedOneMore(canon0: map<nat, Hash>, lookup0: Lookup, canon: map<nat, Hash>, lookup: Lookup,
                       headHeader: Hash, headFast: Hash, done: seq<Block>, p: seq<Hash>,
                       block: Block, lookup': Lookup, headHeader': Hash, headFast': Hash)
    requires Adopted(canon0, lookup0, canon, lookup, headHeader, headFast, done, p) && |done| < |p|
    requires block.header.number == |p| - |done| - 1 && block.header.hash == p[|p| - |done| - 1]
    requires Entered(lookup, lookup', block)
    requires if Changed(canon, p, |p| - |done| - 1) then headHeader' == headFast' == block.header.hash
             else headHeader' == headHeader && headFast' == headFast
    ensures Adopted(canon0, lookup0, canon[block.header.number := block.header.hash], lookup', headHeader', headFast',
                    done + [block], p)
  {
    var lo: nat := |p| - |done|;
    assert Rewritten(canon0, canon[lo - 1 := p[lo - 1]], p, lo - 1)
           && (Changed(canon, p, lo - 1) <==> Changed(canon0, p, lo - 1)) by {
      RewrittenOneMore(canon0, canon, p, lo);
    }
    HeadsOneMore(canon0, canon, p, lo, headHeader, headHeader');
    HeadsOneMore(canon0, canon, p, lo, headFast, headFast');
    assert EnteredAll(lookup0, lookup', done + [block]) by { EnteredOneMore(lookup0, lookup, lookup', done, block); }
  }

  ghost predicate IsHead(b: Block, blocks: Blocks) {
    b.header.hash in blocks && blocks[b.header.hash] == b
  }

  /** Only stored blocks are in the index. */
  ghost predicate IndexStored(canon: map<nat, Hash>, blocks: Blocks) {
    forall n {:trigger canon[n]} | n in canon :: canon[n] in blocks
  }

  /** Index and table belong to the chain q, on which no transaction is repeated. */
  ghost predicate Reflects(canon: map<nat, Hash>, lookup: Lookup, blocks: Blocks, q: seq<Hash>) {
    CanonUpTo(canon, q) && NoRepeat(blocks, q) && LookupIs(lookup, blocks, q)
  }

  lemma NewHeadChanges(blocks: Blocks, canon: map<nat, Hash>, p: seq<Hash>, newHead: Block)
    requires IndexStored(canon, blocks) && |p| > 0 && p[|p| - 1] == newHead.header.hash
    requires newHead.header.hash !in blocks
    ensures Changed(canon, p, |p| - 1)
  {
  }

  /** The chains q and p part above number c; these are their branches. */
  ghost predicate Parting(blocks: Blocks, all: Blocks, q: seq<Hash>, p: seq<Hash>, c: nat, oldChain: seq<Block>,
                          newChain: seq<Block>) {
    && Fork(blocks, all, q, p, c) && c < |p| - 1
    && (c + 1 < |q| ==> p[c + 1] != q[c + 1])
    && Walked(blocks, oldChain, q, c) && Walked(all, newChain, p, c) && Labelled(newChain, p)
  }

  /**
    After a switch from chain q to chain p that part above number fork: the index of p is
    rewritten from there on, and the other heads are at the lowest number of p above the
    fork that was not in the index before.
   */
  ghost predicate SwitchedAt(canon: map<nat, Hash>, canon': map<nat, Hash>, headHeader: Hash, headFast: Hash,
                             q: seq<Hash>, p: seq<Hash>, fork: nat) {
    && fork < |q| && fork < |p| - 1 && p[..fork + 1] == q[..fork + 1]
    && (fork + 1 < |q| ==> p[fork + 1] != q[fork + 1])
    && Changed(canon, p, |p| - 1)
    && Rewritten(canon, canon', p, fork + 1)
    && headHeader == headFast == p[LowestChanged(canon, p, fork + 1)]
  }

  /** What the second half of reorg needs to know about the branches. */
  lemma {:induction false} BranchFacts(blocks: Blocks, all: Blocks, genesis: Hash, head: Block, newHead: Block,
                                       common: Block, oldChain: seq<Block>, newChain: seq<Block>)
    requires all == blocks[newHead.header.hash := newHead] && newHead.header.hash !in blocks
    requires Linked(HeadersOf(blocks), genesis) && Linked(HeadersOf(all), genesis)
    requires head.header.hash in blocks && blocks[head.header.hash] == head
    requires Branches(all, genesis, head.header.hash, newHead.header.hash, common, oldChain, newChain)
    ensures var p, q, c :=
              Chain(all, genesis, newHead.header.hash), Chain(blocks, genesis, head.header.hash), common.header.number;
            Parting(blocks, all, q, p, c, oldChain, newChain) && p[|p| - 1] == newHead.header.hash
  {
    var a, b, c := head.header.hash, newHead.header.hash, common.header.number;
    var hs, hs' := HeadersOf(blocks), HeadersOf(all);
    PathStable(hs, hs', genesis, a);
    PathsMeet(hs', genesis, b, a, c);
    var p, q := Chain(all, genesis, b), Chain(blocks, genesis, a);
    ChainStored(blocks, genesis, a);
    assert Labelled(newChain, p) by { WalkedLabelled(all, genesis, b, newChain, c); }
    WalkedWithout(blocks, all, oldChain, q, c);
    if c + 1 < |q| {
      assert Path(hs', genesis, a)[c + 1] != Path(hs', genesis, b)[c + 1];
    }
  }

  lemma WalkedLabelled(blocks: Blocks, genesis: Hash, h: Hash, chain: seq<Block>, c: nat)
    requires Linked(HeadersOf(blocks), genesis) && h in blocks && Walked(blocks, chain, Chain(blocks, genesis, h), c)
    ensures Labelled(chain, Chain(blocks, genesis, h))
  {
    var p := Chain(blocks, genesis, h);
    forall k {:trigger chain[k]} | 0 <= k < |chain|
      ensures chain[k].header.hash == p[|p| - 1 - k] && chain[k].header.number == |p| - 1 - k
    {
      assert IsBlockAt(blocks, chain[k], p, |p| - 1 - k);
      PathHash(HeadersOf(blocks), genesis, h, |p| - 1 - k);
    }
  }

  lemma WalkedWithout(blocks: Blocks, all: Blocks, chain: seq<Block>, q: seq<Hash>, c: nat)
    requires Walked(all, chain, q, c) && (forall n | 0 <= n < |q| :: q[n] in blocks)
    requires forall h | h in blocks :: h in all && all[h] == blocks[h]
    ensures Walked(blocks, chain, q, c)
  {
    forall k {:trigger chain[k]} | 0 <= k < |chain|
      ensures IsBlockAt(blocks, chain[k], q, |q| - 1 - k)
    {
      assert IsBlockAt(all, chain[k], q, |q| - 1 - k);
      assert q[|q| - 1 - k] in blocks;
    }
  }

  // ---------- Where a switch leaves the header head ----------

  /** Every header above genesis has a positive difficulty. */
  ghost predicate Positive(hs: Headers, genesis: Hash) {
    forall h | h in hs && h != genesis :: hs[h].difficulty > 0
  }

  predicate IsOn(p: seq<Hash>, hs: Headers, h: Hash) {
    h in hs && hs[h].number < |p| && p[hs[h].number] == h
  }

  /** With positive difficulties no stored child of the head exists: it would be the head. */
  lemma {:induction false} HeadHasNoChild(v: HeaderChain.View, genesis: Hash, h: Hash)
    requires HeaderChain.Good(v, genesis) && Positive(v.headers, genesis) && h in v.headers && h != genesis
    ensures v.headers[h].parent != v.head
  {
    assert HeaderChain.TdOk(v, genesis, h);
  }

  /** Above the fork the two chains have no block in common. */
  lemma {:induction false} ForkIsLast(hs: Headers, more: Headers, genesis: Hash, head: Hash, header: Header, fork: nat,
                                      n: nat)
    requires Linked(hs, genesis) && Linked(more, genesis) && more == hs[header.hash := header] && header.hash !in hs
    requires head in hs
    requires var q, p := Path(hs, genesis, head), Path(more, genesis, header.hash);
             fork < n < |p| && n < |q| && p[fork + 1] != q[fork + 1]
    ensures Path(hs, genesis, head)[n] != Path(more, genesis, header.hash)[n]
  {
    PathStable(hs, more, genesis, head);
    if Path(more, genesis, head)[n] == Path(more, genesis, header.hash)[n] {
      PathsMeet(more, genesis, head, header.hash, n);
      assert false;
    }
  }

  /** The branch of the new block leaves the old chain below its head, or is the new block alone. */
  lemma {:induction false} ForkBelowHead(v: HeaderChain.View, genesis: Hash, header: Header, fork: nat)
    requires HeaderChain.Good(v, genesis) && Positive(v.headers, genesis) && header.hash !in v.headers
    requires Linked(v.headers[header.hash := header], genesis)
    requires var q, p := Path(v.headers, genesis, v.head), Path(v.headers[header.hash := header], genesis, header.hash);
             fork < |q| && fork + 2 < |p| && p[fork] == q[fork]
    ensures fork + 1 < |Path(v.headers, genesis, v.head)|
  {
    var more := v.headers[header.hash := header];
    var q, p := Path(v.headers, genesis, v.head), Path(more, genesis, header.hash);
    if fork + 1 == |q| {
      PathParent(more, genesis, header.hash, fork + 1);
      assert p[fork + 1] != header.hash by { PathHash(more, genesis, header.hash, fork + 1); }
      HeadHasNoChild(v, genesis, p[fork + 1]);
      assert false;
    }
  }

  /**
    After a block has become the head, the header and fast sync heads are at the first block of
    its branch above the fork. This is the block itself if and only if its parent was on the
    chain of the head before.
   */
  lemma {:induction false} HeaderHeadAfterSwitch(v: HeaderChain.View, genesis: Hash, header: Header,
                                                 canon: map<nat, Hash>,
                                                 canon': map<nat, Hash>, headHeader: Hash, headFast: Hash, fork: nat)
    requires HeaderChain.Good(v, genesis) && Positive(v.headers, genesis) && header.hash !in v.headers
    requires CanAdd(v.headers, genesis, header) && Linked(v.headers[header.hash := header], genesis)
    requires CanonUpTo(canon, Path(v.headers, genesis, v.head))
    requires SwitchedAt(canon, canon', headHeader, headFast, Path(v.headers, genesis, v.head),
                        Path(v.headers[header.hash := header], genesis, header.hash), fork)
    ensures headHeader == headFast == Path(v.headers[header.hash := header], genesis, header.hash)[fork + 1]
    ensures headHeader == header.hash <==> IsOn(Path(v.headers, genesis, v.head), v.headers, header.parent)
  {
    var hs, more := v.headers, v.headers[header.hash := header];
    var q, p := Path(hs, genesis, v.head), Path(more, genesis, header.hash);
    PathParent(more, genesis, header.hash, |p| - 1);
    assert p[fork] == p[..fork + 1][fork] == q[..fork + 1][fork] == q[fork];
    if fork + 2 < |p| {
      ForkBelowHead(v, genesis, header, fork);
      PathHash(more, genesis, header.hash, fork + 1);
      if |p| - 2 < |q| {
        ForkIsLast(hs, more, genesis, v.head, header, fork, |p| - 2);
      }
    }
  }

  /** Block 2 with difficulty 10 on genesis block 1. */
  method OneBlock() returns (bc: BlockChain)
    ensures fresh(bc) && bc.Valid() && bc.current == Block(Header(2, 1, 1, 10), []) && bc.genesis == 1
    ensures bc.V().tds == map[1 := 1, 2 := 11]
    ensures bc.blocks == map[1 := Block(Header(1, NO_HASH, 0, 1), []), 2 := Block(Header(2, 1, 1, 10), [])]
  {
    bc := new BlockChain(Header(1, NO_HASH, 0, 1), 1);
    var first := Block(Header(2, 1, 1, 10), []);
    EmptyBlockFits(bc.blocks, bc.tds, bc.genesis, first);
    var status, ok, fork := bc.WriteBlockAndState(first, true, false);
  }

  /** Beside the head, block 2, there is block 3 with difficulty 5. */
  method TwoBranches() returns (bc: BlockChain)
    ensures fresh(bc) && bc.Valid() && bc.current == Block(Header(2, 1, 1, 10), []) && bc.genesis == 1
    ensures bc.V().tds == map[1 := 1, 2 := 11, 3 := 6]
    ensures bc.blocks
              == map[1 := Block(Header(1, NO_HASH, 0, 1), []), 2 := Block(Header(2, 1, 1, 10), []),
                     3 := Block(Header(3, 1, 1, 5), [])]
  {
    bc := OneBlock();
    var side := Block(Header(3, 1, 1, 5), []);
    EmptyBlockFits(bc.blocks, bc.tds, bc.genesis, side);
    var status, ok, fork := bc.WriteBlockAndState(side, true, false);
  }

  /** A head block whose header head is another: block 4 on block 3 takes over, and the header head stops at block 3. */
  method HeaderHeadLagsBehind() returns (bc: BlockChain)
    ensures bc.Valid() && bc.current.header.hash == 4 && bc.headHeader == bc.headFast == 3
  {
    bc := TwoBranches();
    var top := Block(Header(4, 3, 2, 7), []);
    EmptyBlockFits(bc.blocks, bc.tds, bc.genesis, top);
    ghost var v, canon := bc.V(), bc.canon;
    var status, ok, fork := bc.WriteBlockAndState(top, true, false);
    assert HeaderOk(bc.V().headers, 1, 4) && HeaderOk(bc.V().headers, 1, 3) && HeaderOk(v.headers, 1, 2);
  }

  lemma EmptyBlockFits(blocks: Blocks, tds: map<Hash, int>, genesis: Hash, block: Block)
    requires Linked(HeadersOf(blocks), genesis) && CanAdd(HeadersOf(blocks), genesis, block.header)
    requires block.txs == [] && block.header.hash !in blocks && forall h | h in blocks :: blocks[h].txs == []
    ensures Acceptable(blocks, tds, genesis, block)
  {
    HeadersOfAdd(blocks, block);
    AddKeepsLinked(HeadersOf(blocks), genesis, block.header);
  }
}
