/**
  TxPool of light/txpool.go: a light client follows its own transactions. They are pending, or
  listed with the block in which they were mined. When the head of the chain moves, blocks are
  rolled back and new ones searched, as far as they can be fetched.
 */
module LightTxPool {
  import opened Options
  import opened ChainTree

  type Tx = nat
  type Mined = map<Hash, seq<Tx>>

  /** After so many blocks no rollback of a transaction is expected. */
  const TX_PERMANENT: nat := 500

  // ---------- Changes between pending and mined ----------

  /** True stands for mined, false for rolled back. */
  type Changes = map<Tx, bool>

  /** setState: the opposite of an earlier change undoes it. */
  function SetState(txc: Changes, tx: Tx, mined: bool): Changes {
    if tx in txc && txc[tx] != mined then txc - {tx} else txc[tx := mined]
  }

  /** What has changed from one set of pending transactions to another. */
  ghost function Net(before: set<Tx>, now: set<Tx>): Changes {
    map tx | tx in (before - now) + (now - before) :: tx in before
  }

  lemma NetMined(before: set<Tx>, now: set<Tx>, tx: Tx)
    requires tx in now
    ensures SetState(Net(before, now), tx, true) == Net(before, now - {tx})
  {
  }

  lemma NetRolledBack(before: set<Tx>, now: set<Tx>, tx: Tx)
    requires tx !in now
    ensures SetState(Net(before, now), tx, false) == Net(before, now + {tx})
  {
  }

  // ---------- Where transactions are ----------

  predicate Distinct(txs: seq<Tx>) {
    forall i, j | 0 <= i < j < |txs| :: txs[i] != txs[j]
  }

  predicate MinedIn(mined: Mined, h: Hash, tx: Tx) {
    h in mined && tx in mined[h]
  }

  /** Every followed transaction is pending or in exactly one list, once. */
  ghost predicate Placed(tracked: set<Tx>, pending: set<Tx>, mined: Mined) {
    && pending <= tracked
    && (forall h | h in mined :: Distinct(mined[h]))
    && (forall tx {:trigger tx in pending} | tx in tracked && tx !in pending :: exists h :: MinedIn(mined, h, tx))
    && (forall h, tx {:trigger MinedIn(mined, h, tx)} | MinedIn(mined, h, tx) :: tx in tracked && tx !in pending)
    && (forall h, g, tx {:trigger MinedIn(mined, h, tx), MinedIn(mined, g, tx)} | MinedIn(mined, h, tx)
        && MinedIn(mined, g, tx) :: h == g)
  }

  function SetOf(txs: seq<Tx>): set<Tx> {
    set tx | tx in txs
  }

  lemma MineKeeps(tracked: set<Tx>, pending: set<Tx>, mined: Mined, hash: Hash, list: seq<Tx>)
    requires Placed(tracked, pending, mined) && hash !in mined && Distinct(list) && SetOf(list) <= pending
    ensures Placed(tracked, pending - SetOf(list), mined[hash := list])
  {
    var pending', mined' := pending - SetOf(list), mined[hash := list];
    forall tx | tx in tracked && tx !in pending'
      ensures exists h :: MinedIn(mined', h, tx)
    {
      if tx in pending {
        assert MinedIn(mined', hash, tx);
      } else {
        var h :| MinedIn(mined, h, tx);
        assert MinedIn(mined', h, tx);
      }
    }
    forall h, tx | MinedIn(mined', h, tx)
      ensures tx in tracked && tx !in pending' && (h != hash ==> tx !in list)
    {
      if h != hash {
        assert MinedIn(mined, h, tx);
      }
    }
    forall h, g, tx | MinedIn(mined', h, tx) && MinedIn(mined', g, tx)
      ensures h == g
    {
      if h != hash && g != hash {
        assert MinedIn(mined, h, tx) && MinedIn(mined, g, tx);
      }
    }
  }

  lemma RollbackKeeps(tracked: set<Tx>, pending: set<Tx>, mined: Mined, hash: Hash)
    requires Placed(tracked, pending, mined) && hash in mined
    ensures Placed(tracked, pending + SetOf(mined[hash]), mined - {hash})
  {
    var pending', mined' := pending + SetOf(mined[hash]), mined - {hash};
    forall tx | tx in mined[hash]
      ensures tx in tracked
    {
      assert MinedIn(mined, hash, tx);
    }
    forall tx | tx in tracked && tx !in pending'
      ensures exists h :: MinedIn(mined', h, tx)
    {
      var h :| MinedIn(mined, h, tx);
      assert MinedIn(mined', h, tx);
    }
    forall h, tx | MinedIn(mined', h, tx)
      ensures tx in tracked && tx !in pending'
    {
      assert MinedIn(mined, h, tx);
      assert tx in mined[hash] ==> MinedIn(mined, hash, tx);
    }
    forall h, g, tx | MinedIn(mined', h, tx) && MinedIn(mined', g, tx)
      ensures h == g
    {
      assert MinedIn(mined, h, tx) && MinedIn(mined, g, tx);
    }
  }

  lemma DiscardKeeps(tracked: set<Tx>, pending: set<Tx>, mined: Mined, hash: Hash)
    requires Placed(tracked, pending, mined) && hash in mined
    ensures Placed(tracked - SetOf(mined[hash]), pending, mined - {hash})
  {
    var tracked', mined' := tracked - SetOf(mined[hash]), mined - {hash};
    forall tx | tx in mined[hash]
      ensures tx !in pending
    {
      assert MinedIn(mined, hash, tx);
    }
    forall tx | tx in tracked' && tx !in pending
      ensures exists h :: MinedIn(mined', h, tx)
    {
      var h :| MinedIn(mined, h, tx);
      assert MinedIn(mined', h, tx);
    }
    forall h, tx | MinedIn(mined', h, tx)
      ensures tx in tracked' && tx !in pending
    {
      assert MinedIn(mined, h, tx);
      assert tx in mined[hash] ==> MinedIn(mined, hash, tx);
    }
    forall h, g, tx | MinedIn(mined', h, tx) && MinedIn(mined', g, tx)
      ensures h == g
    {
      assert MinedIn(mined, h, tx) && MinedIn(mined, g, tx);
    }
  }

  // ---------- The blocks between two heads ----------

  /** The hashes of the chain p from its head down to above number n. */
  predicate IsDown(hashes: seq<Hash>, p: seq<Hash>, n: nat) {
    && n < |p| && |hashes| == |p| - 1 - n
    && forall k {:trigger hashes[k]} | 0 <= k < |hashes| :: IsAt(hashes[k], p, |p| - 1 - k)
  }

  predicate IsAt(h: Hash, p: seq<Hash>, n: int) {
    0 <= n < |p| && p[n] == h
  }

  function Lower(a: nat, b: nat): nat {
    if a <= b then a else b
  }

  lemma {:induction false} StepDown(hs: Headers, genesis: Hash, head: Hash, a: Header, hashes: seq<Hash>)
    requires Linked(hs, genesis) && head in hs && IsAncestor(hs, genesis, head, a) && a.number > 0
    requires IsDown(hashes, Path(hs, genesis, head), a.number)
    ensures a.parent in hs && hs[a.parent].number == a.number - 1 && IsAncestor(hs, genesis, head, hs[a.parent])
    ensures IsDown(hashes + [a.hash], Path(hs, genesis, head), a.number - 1)
  {
    ParentIsAncestor(hs, genesis, head, a);
    var p, more := Path(hs, genesis, head), hashes + [a.hash];
    forall k {:trigger more[k]} | 0 <= k < |more|
      ensures IsAt(more[k], p, |p| - 1 - k)
    {
      if k < |hashes| {
        assert more[k] == hashes[k];
      } else {
        assert |p| - 1 - k == a.number;
      }
    }
  }

  /** The walk of reorgOnNewHead from two heads to the last header on both chains. */
  method FindAncestor(hs: Headers, ghost genesis: Hash, oldHead: Hash, newHeader: Header)
      returns (common: Header, oldHashes: seq<Hash>, newHashes: seq<Hash>)
    requires Linked(hs, genesis) && oldHead in hs && newHeader.hash in hs && hs[newHeader.hash] == newHeader
    ensures IsLastCommon(hs, genesis, oldHead, newHeader.hash, common)
    ensures IsDown(oldHashes, Path(hs, genesis, oldHead), common.number)
    ensures IsDown(newHashes, Path(hs, genesis, newHeader.hash), common.number)
  {
    var oldh, newh := hs[oldHead], newHeader;
    oldHashes, newHashes := [], [];
    IsOwnAncestor(hs, genesis, oldHead);
    IsOwnAncestor(hs, genesis, newHeader.hash);
    while oldh.hash != newh.hash
      invariant IsAncestor(hs, genesis, oldHead, oldh) && IsAncestor(hs, genesis, newHeader.hash, newh)
      invariant IsDown(oldHashes, Path(hs, genesis, oldHead), oldh.number)
      invariant IsDown(newHashes, Path(hs, genesis, newHeader.hash), newh.number)
      invariant PartedFrom(hs, genesis, oldHead, newHeader.hash, Lower(oldh.number, newh.number) + 1)
      decreases oldh.number + newh.number
    {
      SameStart(hs, genesis, oldHead, newHeader.hash, oldh, newh);
      if oldh.number == newh.number {
        PartsBelow(hs, genesis, oldHead, newHeader.hash, oldh, newh);
      }
      if oldh.number >= newh.number {
        StepDown(hs, genesis, oldHead, oldh, oldHashes);
        oldHashes := oldHashes + [oldh.hash];
        oldh := hs[oldh.parent];
      }
      if oldh.number < newh.number {
        StepDown(hs, genesis, newHeader.hash, newh, newHashes);
        newHashes := newHashes + [newh.hash];
        newh := hs[newh.parent];
      }
    }
    common := oldh;
  }

  /** Two headers of number zero are both genesis. */
  lemma SameStart(hs: Headers, genesis: Hash, oldHead: Hash, newHead: Hash, a: Header, b: Header)
    requires Linked(hs, genesis) && oldHead in hs && newHead in hs
    requires IsAncestor(hs, genesis, oldHead, a) && IsAncestor(hs, genesis, newHead, b) && a.hash != b.hash
    ensures a.number > 0 || b.number > 0
  {
    PathStart(hs, genesis, oldHead);
    PathStart(hs, genesis, newHead);
  }

  // ---------- The pool ----------

  /** What can be fetched of a block: its transactions, and whether its receipts come too. */
  datatype Fetched = Fetched(body: Option<seq<Tx>>, receipts: bool)

  /** What is fetched is the block's content, and no block has a transaction twice. */
  ghost predicate Genuine(fetch: Hash -> Fetched, content: Hash -> seq<Tx>) {
    && (forall h {:trigger content(h)} :: Distinct(content(h)))
    && (forall h {:trigger fetch(h)} :: fetch(h).body.Some? ==> fetch(h).body.value == content(h))
  }

  /** Transactions are listed with a block that has them. */
  ghost predicate FromBlocks(mined: Mined, content: Hash -> seq<Tx>) {
    forall h | h in mined :: SetOf(mined[h]) <= SetOf(content(h))
  }

  /** No pending transaction is in a block of the chain p above number n. */
  ghost predicate Searched(pending: set<Tx>, p: seq<Hash>, n: nat, content: Hash -> seq<Tx>) {
    forall k {:trigger p[k]} | n < k < |p| :: SetOf(content(p[k])) !! pending
  }

  ghost predicate OnChain(mined: Mined, p: seq<Hash>) {
    forall h | h in mined :: h in p
  }

  /** The canonical hash of a number belongs to a header with this number, if to any. */
  ghost predicate WellNumbered(hs: Headers, canon: nat -> Hash) {
    forall i: nat {:trigger canon(i)} :: canon(i) in hs ==> hs[canon(i)].number == i
  }

  /** The discarded transactions were mined in blocks that are long past. */
  ghost predicate OnlyOld(hs: Headers, mined: Mined, discarded: set<Tx>, number: nat) {
    forall tx | tx in discarded :: exists h :: MinedIn(mined, h, tx) && h in hs && hs[h].number + TX_PERMANENT < number
  }

  ghost predicate LongPast(hs: Headers, content: Hash -> seq<Tx>, discarded: set<Tx>, number: nat) {
    forall tx | tx in discarded :: exists h :: h in hs && tx in content(h) && hs[h].number + TX_PERMANENT < number
  }

  lemma OldIsPast(hs: Headers, mined: Mined, content: Hash -> seq<Tx>, discarded: set<Tx>, number: nat)
    requires FromBlocks(mined, content) && OnlyOld(hs, mined, discarded, number)
    ensures LongPast(hs, content, discarded, number)
  {
    forall tx | tx in discarded
      ensures exists h :: h in hs && tx in content(h) && hs[h].number + TX_PERMANENT < number
    {
      var h :| MinedIn(mined, h, tx) && h in hs && hs[h].number + TX_PERMANENT < number;
      assert tx in SetOf(mined[h]) && tx in SetOf(content(h));
    }
  }

  /** The lists of all blocks but some are as before, or all in them has been discarded. */
  ghost predicate Undisturbed(mined: Mined, mined': Mined, but: seq<Hash>, discarded: set<Tx>) {
    forall h | h in mined && h !in but :: (h in mined' && mined'[h] == mined[h]) || SetOf(mined[h]) <= discarded
  }

  function HashesOf(hashes: seq<Hash>): set<Hash> {
    set h | h in hashes
  }

  /** The hashes that go down from the head of p to above number n are those of this branch. */
  lemma BranchIs(hashes: seq<Hash>, p: seq<Hash>, n: nat)
    requires IsDown(hashes, p, n)
    ensures HashesOf(hashes) == HashesOf(p[n + 1..])
  {
    forall h | h in hashes
      ensures h in p[n + 1..]
    {
      var k :| 0 <= k < |hashes| && hashes[k] == h;
      assert p[n + 1..][|p| - 1 - k - (n + 1)] == h;
    }
    forall h | h in p[n + 1..]
      ensures h in hashes
    {
      var k :| 0 <= k < |p| - n - 1 && p[n + 1..][k] == h;
      assert IsAt(hashes[|p| - 1 - (n + 1 + k)], p, n + 1 + k);
    }
  }

  function ListOf(mined: Mined, h: Hash): set<Tx> {
    if h in mined then SetOf(mined[h]) else {}
  }

  /** The pending transactions when those listed with the blocks of a branch have been rolled back. */
  function RolledBack(pending: set<Tx>, mined: Mined, branch: set<Hash>): set<Tx> {
    pending + set h, tx | h in mined && h in branch && tx in mined[h] :: tx
  }

  lemma RolledBackOneMore(pending: set<Tx>, mined: Mined, hashes: seq<Hash>, k: nat)
    requires k < |hashes|
    ensures var done, more := HashesOf(hashes[..k]), HashesOf(hashes[..k + 1]);
            && RolledBack(pending, mined, more) == RolledBack(pending, mined, done) + ListOf(mined - done, hashes[k])
            && mined - more == mined - done - {hashes[k]}
  {
    assert hashes[..k + 1] == hashes[..k] + [hashes[k]];
  }

  // ---------- How far the new branch can be searched ----------

  /** The block can be fetched as far as it is needed: not at all if nothing is pending. */
  predicate Passes(pending: set<Tx>, fetched: Fetched, body: seq<Tx>) {
    pending == {} || (fetched.body.Some? && (fetched.receipts || SetOf(body) !! pending))
  }

  /** What is still pending when the blocks of the chain p above number n have been searched up to number k. */
  ghost function LeftAt(pending: set<Tx>, p: seq<Hash>, n: nat, k: nat, content: Hash -> seq<Tx>): set<Tx>
    requires n <= k < |p|
  {
    if k == n then pending else LeftAt(pending, p, n, k - 1, content) - SetOf(content(p[k]))
  }

  ghost predicate PassesAt(pending: set<Tx>, p: seq<Hash>, n: nat, k: nat, fetch: Hash -> Fetched,
                           content: Hash -> seq<Tx>)
    requires n < k < |p|
  {
    Passes(LeftAt(pending, p, n, k - 1, content), fetch(p[k]), content(p[k]))
  }

  /** The blocks up to number `at` have been searched, and the head is there. */
  ghost predicate Reaches(pending: set<Tx>, p: seq<Hash>, n: nat, at: int, head: Hash, pending': set<Tx>,
                          fetch: Hash -> Fetched, content: Hash -> seq<Tx>)
  {
    && n <= at < |p| && head == p[at] && pending' == LeftAt(pending, p, n, at, content)
    && forall k | n < k <= at :: PassesAt(pending, p, n, k, fetch, content)
  }

  lemma ReachesNext(pending0: set<Tx>, p: seq<Hash>, n: nat, at: nat, head: Hash, pending: set<Tx>, pending': set<Tx>,
                    fetch: Hash -> Fetched, content: Hash -> seq<Tx>, ok: bool)
    requires Reaches(pending0, p, n, at, head, pending, fetch, content) && at + 1 < |p|
    requires ok <==> Passes(pending, fetch(p[at + 1]), content(p[at + 1]))
    requires pending' == if ok then pending - SetOf(content(p[at + 1])) else pending
    ensures ok <==> PassesAt(pending0, p, n, at + 1, fetch, content)
    ensures if ok then Reaches(pending0, p, n, at + 1, p[at + 1], pending', fetch, content)
            else Reaches(pending0, p, n, at, head, pending', fetch, content)
  {
  }

  /**
    The transactions listed with block h when the blocks of the chain p above number n have been searched up to `at`.
   */
  ghost function ListedAt(mined: Mined, pending: set<Tx>, p: seq<Hash>, n: nat, at: nat, content: Hash -> seq<Tx>,
                          h: Hash): set<Tx>
    requires n <= at < |p|
  {
    if at == n then ListOf(mined, h)
    else if p[at] == h then LeftAt(pending, p, n, at - 1, content) * SetOf(content(h))
    else ListedAt(mined, pending, p, n, at - 1, content, h)
  }

  /** The lists are just these, but for those of some blocks, which are gone. */
  ghost predicate AreListed(mined0: Mined, pending0: set<Tx>, p: seq<Hash>, n: nat, at: int, content: Hash -> seq<Tx>,
                            mined: Mined, gone: set<Hash>) {
    && n <= at < |p|
    && forall h: Hash {:trigger ListOf(mined, h)} ::
         ListOf(mined, h) == if h in gone then {} else ListedAt(mined0, pending0, p, n, at, content, h)
  }

  /** Only the list of one block is new. */
  ghost predicate IsListed(mined: Mined, mined': Mined, hash: Hash, txs: set<Tx>) {
    forall h: Hash {:trigger ListOf(mined', h)} :: ListOf(mined', h) == if h == hash then txs else ListOf(mined, h)
  }

  lemma ListedNext(mined0: Mined, pending0: set<Tx>, p: seq<Hash>, n: nat, at: nat, content: Hash -> seq<Tx>,
                   mined: Mined, mined': Mined)
    requires AreListed(mined0, pending0, p, n, at, content, mined, {}) && at + 1 < |p|
    requires IsListed(mined, mined', p[at + 1], LeftAt(pending0, p, n, at, content) * SetOf(content(p[at + 1])))
    ensures AreListed(mined0, pending0, p, n, at + 1, content, mined', {})
  {
    forall h: Hash
      ensures ListOf(mined', h) == ListedAt(mined0, pending0, p, n, at + 1, content, h)
    {
      assert h != p[at + 1] ==> ListOf(mined', h) == ListOf(mined, h);
    }
  }

  /** What was listed with some blocks. */
  ghost function AllListed(mined: Mined, hashes: set<Hash>): set<Tx> {
    set h, tx | h in hashes && tx in ListOf(mined, h) :: tx
  }

  ghost predicate StopsAt(pending: set<Tx>, p: seq<Hash>, n: nat, at: nat, fetch: Hash -> Fetched,
                          content: Hash -> seq<Tx>, ok: bool)
  {
    if ok then at + 1 == |p| else n < at + 1 < |p| && !PassesAt(pending, p, n, at + 1, fetch, content)
  }

  ghost predicate AllPass(pending: set<Tx>, p: seq<Hash>, n: nat, fetch: Hash -> Fetched, content: Hash -> seq<Tx>) {
    forall k | n < k < |p| :: PassesAt(pending, p, n, k, fetch, content)
  }

  lemma {:induction false} LeftIsSearched(pending: set<Tx>, p: seq<Hash>, n: nat, at: nat, content: Hash -> seq<Tx>)
    requires n <= at < |p|
    ensures Searched(LeftAt(pending, p, n, at, content), p[..at + 1], n, content)
    decreases at
  {
    if at > n {
      LeftIsSearched(pending, p, n, at - 1, content);
      SearchedOneMore(LeftAt(pending, p, n, at - 1, content), LeftAt(pending, p, n, at, content), p[..at], n, content,
                      p[at]);
      assert p[..at] + [p[at]] == p[..at + 1];
    }
  }

  lemma ReachedIsSearched(hs: Headers, genesis: Hash, newHead: Hash, again: set<Tx>, n: nat, at: nat, head: Hash,
                          pending: set<Tx>, fetch: Hash -> Fetched, content: Hash -> seq<Tx>, ok: bool)
    requires Linked(hs, genesis) && newHead in hs
    requires var p := Path(hs, genesis, newHead);
             Reaches(again, p, n, at, head, pending, fetch, content) && StopsAt(again, p, n, at, fetch, content, ok)
    ensures head in hs && hs[head].number == at && Searched(pending, Path(hs, genesis, head), n, content)
    ensures var p := Path(hs, genesis, newHead);
            ok <==> AllPass(again, p, n, fetch, content)
  {
    PathPrefix(hs, genesis, newHead, at);
    LeftIsSearched(again, Path(hs, genesis, newHead), n, at, content);
  }

  /** The blocks up to number `at` have been searched: where the head is, what is pending, and what the lists are. */
  ghost predicate Checked(mined0: Mined, pending0: set<Tx>, p: seq<Hash>, n: nat, at: int, head: Hash,
                          pending: set<Tx>, mined: Mined, fetch: Hash -> Fetched, content: Hash -> seq<Tx>) {
    && Reaches(pending0, p, n, at, head, pending, fetch, content)
    && AreListed(mined0, pending0, p, n, at, content, mined, {}) && Undisturbed(mined0, mined, [], {})
  }

  /** Heads, pending transactions and lists when the blocks up to number `at` have been searched. */
  ghost function CheckedAt(mined0: Mined, pending0: set<Tx>, p: seq<Hash>, n: nat, at: int, fetch: Hash -> Fetched,
                           content: Hash -> seq<Tx>): iset<(Hash, set<Tx>, Mined)> {
    iset x: (Hash, set<Tx>, Mined) | Checked(mined0, pending0, p, n, at, x.0, x.1, x.2, fetch, content)
  }

  lemma CheckedNone(mined: Mined, pending: set<Tx>, p: seq<Hash>, n: nat, fetch: Hash -> Fetched,
                    content: Hash -> seq<Tx>)
    requires n < |p|
    ensures (p[n], pending, mined) in CheckedAt(mined, pending, p, n, n, fetch, content)
  {
    assert Checked(mined, pending, p, n, n, p[n], pending, mined, fetch, content);
  }

  lemma CheckedHead(mined0: Mined, pending0: set<Tx>, p: seq<Hash>, n: nat, at: int, head: Hash, pending: set<Tx>,
                    mined: Mined, fetch: Hash -> Fetched, content: Hash -> seq<Tx>)
    requires (head, pending, mined) in CheckedAt(mined0, pending0, p, n, at, fetch, content)
    ensures n <= at < |p| && head == p[at]
  {
    assert Checked(mined0, pending0, p, n, at, head, pending, mined, fetch, content);
  }

  lemma CheckedNext(mined0: Mined, pending0: set<Tx>, p: seq<Hash>, n: nat, at: nat, head: Hash, pending: set<Tx>,
                    mined: Mined, pending': set<Tx>, mined': Mined, fetch: Hash -> Fetched,
                    content: Hash -> seq<Tx>, ok: bool)
    requires (head, pending, mined) in CheckedAt(mined0, pending0, p, n, at, fetch, content) && n <= at < |p| - 1
    requires ok <==> Passes(pending, fetch(p[at + 1]), content(p[at + 1]))
    requires pending' == if ok then pending - SetOf(content(p[at + 1])) else pending
    requires if ok then IsListed(mined, mined', p[at + 1], pending * SetOf(content(p[at + 1]))) else mined' == mined
    requires Undisturbed(mined, mined', [], {})
    ensures ok <==> PassesAt(pending0, p, n, at + 1, fetch, content)
    ensures if ok then (p[at + 1], pending', mined') in CheckedAt(mined0, pending0, p, n, at + 1, fetch, content)
            else (head, pending', mined') in CheckedAt(mined0, pending0, p, n, at, fetch, content)
  {
    assert Checked(mined0, pending0, p, n, at, head, pending, mined, fetch, content);
    ReachesNext(pending0, p, n, at, head, pending, pending', fetch, content, ok);
    UndisturbedTwice(mined0, mined, mined', [], {});
    if ok {
      ListedNext(mined0, pending0, p, n, at, content, mined, mined');
    }
  }

  /** The pool as a value. */
  datatype View = View(head: Hash, pending: set<Tx>, mined: Mined, clearIdx: nat, tracked: set<Tx>)

  /** What a new head came to; found are the lists when the search has stopped. */
  datatype Reorg = Reorg(ok: bool, txc: Changes, discarded: set<Tx>, common: Header, found: Mined)

  /**
    The blocks of the old branch are rolled back, and those of the new one searched in order, up to the first that does
    not pass.
   */
  ghost predicate IsSearch(hs: Headers, genesis: Hash, content: Hash -> seq<Tx>, fetch: Hash -> Fetched, newHead: Hash,
                           v: View, head: Hash, pending: set<Tx>, found: Mined, common: Header, ok: bool) {
    && Linked(hs, genesis) && v.head in hs && head in hs && newHead in hs
    && IsLastCommon(hs, genesis, v.head, newHead, common)
    && var p, c, at := Path(hs, genesis, newHead), common.number, hs[head].number;
       var branch := HashesOf(Path(hs, genesis, v.head)[c + 1..]);
       var again := RolledBack(v.pending, v.mined, branch);
       && Checked(v.mined - branch, again, p, c, at, head, pending, found, fetch, content)
       && StopsAt(again, p, c, at, fetch, content, ok) && (ok <==> AllPass(again, p, c, fetch, content))
  }

  /** The lists of old canonical blocks have been discarded, if all went well. */
  ghost predicate IsFinished(ok: bool, mined: Mined, mined': Mined, discarded: set<Tx>, from: nat, clearIdx: nat,
                             number: nat, canon: nat -> Hash) {
    var gone := if ok then Canonical(canon, from, number - TX_PERMANENT) else {};
    && mined' == mined - gone && discarded == AllListed(mined, gone)
    && clearIdx == if ok && number > from + TX_PERMANENT then number - TX_PERMANENT else from
  }

  /** The pool before and after a new head. */
  ghost predicate IsReorg(hs: Headers, genesis: Hash, content: Hash -> seq<Tx>, fetch: Hash -> Fetched,
                          canon: nat -> Hash, newHeader: Header, v: View, w: View, r: Reorg) {
    && IsSearch(hs, genesis, content, fetch, newHeader.hash, v, w.head, w.pending, r.found, r.common, r.ok)
    && IsFinished(r.ok, r.found, w.mined, r.discarded, Lower(v.clearIdx, r.common.number), w.clearIdx, newHeader.number,
                  canon)
    && r.txc == Net(v.pending, w.pending) && w.tracked == v.tracked - r.discarded
  }

  /** What a new head may come to. */
  ghost function Reorgs(hs: Headers, genesis: Hash, content: Hash -> seq<Tx>, fetch: Hash -> Fetched,
                        canon: nat -> Hash, newHeader: Header, v: View): iset<(View, Reorg)> {
    iset x: (View, Reorg) | IsReorg(hs, genesis, content, fetch, canon, newHeader, v, x.0, x.1)
  }

  ghost function Searches(hs: Headers, genesis: Hash, content: Hash -> seq<Tx>, fetch: Hash -> Fetched, newHead: Hash,
                          v: View): iset<(Hash, set<Tx>, Mined, Header, bool)> {
    iset x: (Hash, set<Tx>, Mined, Header, bool)
      | IsSearch(hs, genesis, content, fetch, newHead, v, x.0, x.1, x.2, x.3, x.4)
  }

  /** What a step does. */
  ghost predicate IsStep(hs: Headers, genesis: Hash, content: Hash -> seq<Tx>, v: View, w: View, step: Step,
                         r: Option<Reorg>) {
    match step
    case Add(tx, valid, _) =>
      w == if valid && tx !in v.pending then v.(pending := v.pending + {tx}, tracked := v.tracked + {tx}) else v
    case Remove(tx) =>
      w == if tx in v.pending then v.(pending := v.pending - {tx}, tracked := v.tracked - {tx}) else v
    case NewHead(headers, header, fetch, canon) =>
      hs == headers && r.Some? && (w, r.value) in Reorgs(headers, genesis, content, fetch, canon, header, v)
  }

  lemma ReorgIs(hs: Headers, genesis: Hash, content: Hash -> seq<Tx>, fetch: Hash -> Fetched, canon: nat -> Hash,
                newHeader: Header, v: View, searched: View, from: nat, w: View, r: Reorg)
    requires from == Lower(v.clearIdx, r.common.number) && searched == v.(clearIdx := from)
    requires (w.head, w.pending, r.found, r.common, r.ok)
               in Searches(hs, genesis, content, fetch, newHeader.hash, searched)
    requires IsFinished(r.ok, r.found, w.mined, r.discarded, from, w.clearIdx, newHeader.number, canon)
    requires r.txc == Net(v.pending, w.pending) && w.tracked == v.tracked - r.discarded
    ensures (w, r) in Reorgs(hs, genesis, content, fetch, canon, newHeader, v)
  {
    assert IsSearch(hs, genesis, content, fetch, newHeader.hash, searched, w.head, w.pending, r.found, r.common, r.ok);
    assert IsReorg(hs, genesis, content, fetch, canon, newHeader, v, w, r);
  }

  lemma UndisturbedTwice(mined: Mined, mined': Mined, mined'': Mined, but: seq<Hash>, discarded: set<Tx>)
    requires Undisturbed(mined, mined', but, {}) && Undisturbed(mined', mined'', [], discarded)
    ensures Undisturbed(mined, mined'', but, discarded)
  {
  }

  class Pool {
    var head: Hash
    var pending: set<Tx>
    var mined: Mined
    var clearIdx: nat
    // the transactions that are followed, and the transactions of any block
    ghost var tracked: set<Tx>
    ghost const content: Hash -> seq<Tx>

    /** Blocks with mined transactions are on the chain of the head. */
    ghost predicate Valid(hs: Headers, genesis: Hash)
      reads this
    {
      && Linked(hs, genesis) && head in hs
      && Placed(tracked, pending, mined)
      && OnChain(mined, Path(hs, genesis, head)) && FromBlocks(mined, content)
    }

    ghost function V(): View
      reads this
    {
      View(head, pending, mined, clearIdx, tracked)
    }

    constructor (header: Header, ghost hs: Headers, ghost genesis: Hash, ghost content: Hash -> seq<Tx>)
      requires Linked(hs, genesis) && header.hash in hs
      ensures Valid(hs, genesis) && head == header.hash && pending == tracked == {} && mined == map[]
      ensures clearIdx == header.number
      ensures this.content == content
    {
      this.content := content;
      head, clearIdx := header.hash, header.number;
      pending, mined, tracked := {}, map[], {};
    }

    /** checkMinedTxs: the pending transactions of the block are mined; if it cannot be fetched, nothing happens. */
    method CheckMinedTxs(hash: Hash, fetched: Fetched, txc0: Changes, ghost before: set<Tx>)
        returns (ok: bool, txc: Changes)
      requires Placed(tracked, pending, mined) && FromBlocks(mined, content) && hash !in mined
      requires txc0 == Net(before, pending)
      requires Distinct(content(hash)) && (fetched.body.Some? ==> fetched.body.value == content(hash))
      modifies this`pending, this`mined
      ensures Placed(tracked, pending, mined) && FromBlocks(mined, content) && txc == Net(before, pending)
      ensures ok <==> Passes(old(pending), fetched, content(hash))
      ensures !ok ==> pending == old(pending) && mined == old(mined)
      ensures ok ==> pending == old(pending) - SetOf(content(hash))
      ensures ok ==> IsListed(old(mined), mined, hash, old(pending) * SetOf(content(hash)))
      ensures mined.Keys <= old(mined).Keys + {hash} && Undisturbed(old(mined), mined, [], {})
    {
      ok, txc := true, txc0;
      if |pending| == 0 {
        assert pending == {};
        return;
      }
      if fetched.body == None {
        return false, txc;
      }
      ok, txc := CheckBody(hash, fetched.body.value, fetched.receipts, txc, before);
    }

    method CheckBody(hash: Hash, body: seq<Tx>, receipts: bool, txc0: Changes, ghost before: set<Tx>)
        returns (ok: bool, txc: Changes)
      requires Placed(tracked, pending, mined) && FromBlocks(mined, content) && hash !in mined
      requires txc0 == Net(before, pending) && Distinct(body) && body == content(hash)
      modifies this`pending, this`mined
      ensures Placed(tracked, pending, mined) && FromBlocks(mined, content) && txc == Net(before, pending)
      ensures ok <==> receipts || SetOf(body) !! old(pending)
      ensures !ok ==> pending == old(pending) && mined == old(mined)
      ensures ok ==> pending == old(pending) - SetOf(body)
      ensures ok ==> IsListed(old(mined), mined, hash, old(pending) * SetOf(body))
      ensures mined.Keys <= old(mined).Keys + {hash} && Undisturbed(old(mined), mined, [], {})
    {
      ok, txc := true, txc0;
      var list := Local(body, pending);
      LocalFacts(list, body, pending);
      if list == [] {
        return;
      }
      if !receipts {
        return false, txc;
      }
      MineKeeps(tracked, pending, mined, hash, list);
      txc := MarkMined(list, txc, before);
      mined := mined[hash := list];
    }

    /** Takes transactions from the pending ones, noting each as mined. */
    method MarkMined(list: seq<Tx>, txc0: Changes, ghost before: set<Tx>) returns (txc: Changes)
      requires Distinct(list) && SetOf(list) <= pending && txc0 == Net(before, pending)
      modifies this`pending
      ensures pending == old(pending) - SetOf(list) && txc == Net(before, pending)
    {
      txc := txc0;
      for i := 0 to |list|
        invariant pending == old(pending) - SetOf(list[..i]) && txc == Net(before, pending)
      {
        assert list[..i + 1] == list[..i] + [list[i]];
        assert list[i] in SetOf(list) && list[i] !in list[..i];
        NetMined(before, pending, list[i]);
        pending := pending - {list[i]};
        txc := SetState(txc, list[i], true);
      }
      assert list[..|list|] == list;
    }

    /** rollbackTxs: the transactions of a block are pending again. */
    method RollbackTxs(hash: Hash, txc0: Changes, ghost before: set<Tx>) returns (txc: Changes)
      requires Placed(tracked, pending, mined) && FromBlocks(mined, content) && txc0 == Net(before, pending)
      modifies this`pending, this`mined
      ensures Placed(tracked, pending, mined) && FromBlocks(mined, content) && txc == Net(before, pending)
      ensures mined == old(mined) - {hash}
      ensures pending == old(pending) + ListOf(old(mined), hash)
    {
      txc := txc0;
      if hash in mined {
        var list := mined[hash];
        RollbackKeeps(tracked, pending, mined, hash);
        NotPending(tracked, pending, mined, hash);
        txc := MarkPending(list, txc, before);
        mined := mined - {hash};
      } else {
        assert mined - {hash} == mined;
      }
    }

    /** Gives transactions back to the pending ones, noting each as rolled back. */
    method MarkPending(list: seq<Tx>, txc0: Changes, ghost before: set<Tx>) returns (txc: Changes)
      requires Distinct(list) && SetOf(list) !! pending && txc0 == Net(before, pending)
      modifies this`pending
      ensures pending == old(pending) + SetOf(list) && txc == Net(before, pending)
    {
      txc := txc0;
      for i := 0 to |list|
        invariant pending == old(pending) + SetOf(list[..i]) && txc == Net(before, pending)
      {
        assert list[..i + 1] == list[..i] + [list[i]];
        assert list[i] in SetOf(list) && list[i] !in list[..i];
        NetRolledBack(before, pending, list[i]);
        pending := pending + {list[i]};
        txc := SetState(txc, list[i], false);
      }
      assert list[..|list|] == list;
    }

    /** Rolls back the blocks of the old branch; what is left is on the chain of the common block. */
    method RollbackAll(hashes: seq<Hash>, ghost p: seq<Hash>, ghost n: nat, txc0: Changes, ghost before: set<Tx>)
        returns (txc: Changes)
      requires Placed(tracked, pending, mined) && FromBlocks(mined, content) && OnChain(mined, p)
      requires IsDown(hashes, p, n) && txc0 == Net(before, pending)
      modifies this`pending, this`mined
      ensures Placed(tracked, pending, mined) && FromBlocks(mined, content) && OnChain(mined, p[..n + 1])
      ensures txc == Net(before, pending) && pending == RolledBack(old(pending), old(mined), HashesOf(p[n + 1..]))
      ensures mined == old(mined) - HashesOf(p[n + 1..]) && Undisturbed(old(mined), mined, p[n + 1..], {})
    {
      txc := txc0;
      assert RolledBack(pending, mined, HashesOf(hashes[..0])) == pending;
      for k := 0 to |hashes|
        invariant Placed(tracked, pending, mined) && FromBlocks(mined, content) && OnChain(mined, p)
        invariant txc == Net(before, pending) && pending == RolledBack(old(pending), old(mined), HashesOf(hashes[..k]))
        invariant mined == old(mined) - HashesOf(hashes[..k])
      {
        RolledBackOneMore(old(pending), old(mined), hashes, k);
        txc := RollbackTxs(hashes[k], txc, before);
      }
      assert hashes[..|hashes|] == hashes;
      BranchIs(hashes, p, n);
      LeftBelow(mined, hashes, p, n);
    }

    method RollbackTo(ghost hs: Headers, ghost genesis: Hash, hashes: seq<Hash>, ancestor: Header)
        returns (txc: Changes)
      requires Valid(hs, genesis) && IsAncestor(hs, genesis, head, ancestor)
      requires IsDown(hashes, Path(hs, genesis, head), ancestor.number)
      modifies this`pending, this`mined, this`head
      ensures Valid(hs, genesis) && head == ancestor.hash && txc == Net(old(pending), pending)
      ensures var branch := Path(hs, genesis, old(head))[ancestor.number + 1..];
              && pending == RolledBack(old(pending), old(mined), HashesOf(branch))
              && mined == old(mined) - HashesOf(branch) && Undisturbed(old(mined), mined, branch, {})
    {
      ghost var p := Path(hs, genesis, head);
      PathPrefix(hs, genesis, head, ancestor.number);
      assert Net(pending, pending) == map[];
      txc := RollbackAll(hashes, p, ancestor.number, map[], pending);
      head := ancestor.hash;
    }

    /**
      Searches the blocks of the new branch from the lowest up, and stops below the first that cannot be fetched, where
      the head is then.
     */
    method CheckAll(ghost hs: Headers, ghost genesis: Hash, hashes: seq<Hash>, ghost newHead: Hash, ghost n: nat,
                    fetch: Hash -> Fetched, txc0: Changes, ghost before: set<Tx>)
        returns (ok: bool, txc: Changes, ghost at: nat)
      requires Valid(hs, genesis) && newHead in hs && n <= hs[newHead].number && head == Path(hs, genesis, newHead)[n]
      requires IsDown(hashes, Path(hs, genesis, newHead), n) && Genuine(fetch, content) && txc0 == Net(before, pending)
      modifies this`pending, this`mined, this`head
      ensures Valid(hs, genesis) && txc == Net(before, pending)
      ensures (head, pending, mined)
                in CheckedAt(old(mined), old(pending), Path(hs, genesis, newHead), n, at, fetch, content)
      ensures StopsAt(old(pending), Path(hs, genesis, newHead), n, at, fetch, content, ok)
    {
      ok, txc := true, txc0;
      ghost var p := Path(hs, genesis, newHead);
      var i := |hashes|;
      CheckedNone(mined, pending, p, n, fetch, content);
      while i > 0
        invariant 0 <= i <= |hashes| && Valid(hs, genesis) && txc == Net(before, pending)
        invariant (head, pending, mined) in CheckedAt(old(mined), old(pending), p, n, |p| - 1 - i, fetch, content)
      {
        i := i - 1;
        ok, txc := CheckNext(hs, genesis, hashes, newHead, n, i, fetch, txc, before, old(pending), old(mined));
        if !ok {
          return false, txc, |p| - 2 - i;
        }
      }
      at := |p| - 1;
    }

    /** The next block up; the head moves there if it can be fetched. */
    method CheckNext(ghost hs: Headers, ghost genesis: Hash, hashes: seq<Hash>, ghost newHead: Hash, ghost n: nat,
                     i: nat, fetch: Hash -> Fetched, txc0: Changes, ghost before: set<Tx>, ghost pending0: set<Tx>,
                     ghost mined0: Mined)
        returns (ok: bool, txc: Changes)
      requires Valid(hs, genesis) && newHead in hs && i < |hashes| && IsDown(hashes, Path(hs, genesis, newHead), n)
      requires Genuine(fetch, content) && txc0 == Net(before, pending)
      requires var p := Path(hs, genesis, newHead);
               (head, pending, mined) in CheckedAt(mined0, pending0, p, n, |p| - 2 - i, fetch, content)
      modifies this`pending, this`mined, this`head
      ensures Valid(hs, genesis) && txc == Net(before, pending)
      ensures var p := Path(hs, genesis, newHead);
              && (head, pending, mined)
                   in CheckedAt(mined0, pending0, p, n, if ok then |p| - 1 - i else |p| - 2 - i, fetch, content)
              && (ok <==> PassesAt(pending0, p, n, |p| - 1 - i, fetch, content))
    {
      var hash := hashes[i];
      CheckedHead(mined0, pending0, Path(hs, genesis, newHead), n, |Path(hs, genesis, newHead)| - 2 - i, head, pending,
                  mined, fetch, content);
      NextOnChain(hs, genesis, newHead, hashes, n, i, head, mined);
      ok, txc := CheckMinedTxs(hash, fetch(hash), txc0, before);
      ghost var p := Path(hs, genesis, newHead);
      CheckedNext(mined0, pending0, p, n, |p| - 2 - i, head, old(pending), old(mined), pending, mined, fetch, content,
                  ok);
      OnChainOneMore(old(mined), mined, Path(hs, genesis, head), hash);
      if ok {
        head := hash;
      }
    }

    /** Transactions mined in old blocks are permanent, and followed no longer. */
    method ClearOld(ghost hs: Headers, ghost genesis: Hash, number: nat, canon: nat -> Hash)
        returns (ghost discarded: set<Tx>)
      requires Valid(hs, genesis) && WellNumbered(hs, canon)
      modifies this`mined, this`clearIdx, this`tracked
      ensures Valid(hs, genesis) && tracked == old(tracked) - discarded
      ensures OnlyOld(hs, old(mined), discarded, number) && Undisturbed(old(mined), mined, [], discarded)
      ensures mined == old(mined) - Canonical(canon, old(clearIdx), number - TX_PERMANENT)
      ensures discarded == AllListed(old(mined), Canonical(canon, old(clearIdx), number - TX_PERMANENT))
      ensures clearIdx == if number > old(clearIdx) + TX_PERMANENT then number - TX_PERMANENT else old(clearIdx)
    {
      discarded := {};
      if number > clearIdx + TX_PERMANENT {
        var upto := number - TX_PERMANENT;
        if |mined| > 0 {
          discarded := ClearTo(hs, genesis, number, canon, upto);
        }
        clearIdx := upto;
      }
    }

    method ClearTo(ghost hs: Headers, ghost genesis: Hash, ghost number: nat, canon: nat -> Hash, upto: nat)
        returns (ghost discarded: set<Tx>)
      requires Valid(hs, genesis) && WellNumbered(hs, canon) && clearIdx < upto && upto + TX_PERMANENT <= number
      modifies this`mined, this`tracked
      ensures Valid(hs, genesis) && tracked == old(tracked) - discarded
      ensures Clearing(hs, old(mined), mined, discarded, number, canon, clearIdx, upto)
    {
      discarded := {};
      NoneCleared(hs, mined, number, canon, clearIdx);
      for i := clearIdx to upto
        invariant Valid(hs, genesis) && tracked == old(tracked) - discarded
        invariant Clearing(hs, old(mined), mined, discarded, number, canon, clearIdx, i)
      {
        discarded := ClearAt(hs, genesis, number, canon, i, old(mined), old(tracked), discarded);
      }
    }

    /** The transactions of the canonical block with this number, if it is in the lists. */
    method ClearAt(ghost hs: Headers, ghost genesis: Hash, ghost number: nat, canon: nat -> Hash, i: nat,
                   ghost mined0: Mined, ghost tracked0: set<Tx>, ghost discarded0: set<Tx>)
        returns (ghost discarded: set<Tx>)
      requires Valid(hs, genesis) && WellNumbered(hs, canon) && clearIdx <= i && i + TX_PERMANENT < number
      requires Clearing(hs, mined0, mined, discarded0, number, canon, clearIdx, i) && tracked == tracked0 - discarded0
      modifies this`mined, this`tracked
      ensures Valid(hs, genesis) && tracked == tracked0 - discarded
      ensures Clearing(hs, mined0, mined, discarded, number, canon, clearIdx, i + 1)
    {
      discarded := discarded0;
      var hash := canon(i);
      if hash in mined {
        DiscardKeeps(tracked, pending, mined, hash);
        OneMoreOld(hs, genesis, head, mined0, mined, discarded, number, canon, clearIdx, i);
        discarded := discarded + SetOf(mined[hash]);
        tracked := tracked - SetOf(mined[hash]);
        mined := mined - {hash};
      } else {
        NoneAt(hs, mined0, mined, discarded, number, canon, clearIdx, i);
      }
    }

    /**
      reorgOnNewHead. Whether it comes to the end or stops at a block that cannot be fetched: blocks with mined
      transactions are on the chain of the head, every followed transaction is pending or in one list, and the changes
      returned are just those of the pending transactions. The head is just below the first block that cannot be
      fetched, if there is one. Only transactions mined long ago are no longer followed.
     */
    method ReorgOnNewHead(hs: Headers, ghost genesis: Hash, newHeader: Header, fetch: Hash -> Fetched,
                          canon: nat -> Hash)
        returns (ok: bool, txc: Changes, ghost discarded: set<Tx>, ghost common: Header, ghost found: Mined)
      requires Valid(hs, genesis) && newHeader.hash in hs && hs[newHeader.hash] == newHeader
      requires Genuine(fetch, content) && WellNumbered(hs, canon)
      modifies this
      ensures Valid(hs, genesis) && (ok ==> head == newHeader.hash)
      ensures (V(), Reorg(ok, txc, discarded, common, found))
                in Reorgs(hs, genesis, content, fetch, canon, newHeader, old(V()))
      ensures IsLastCommon(hs, genesis, old(head), newHeader.hash, common)
      ensures Searched(pending, Path(hs, genesis, head), common.number, content)
      ensures discarded !! pending && LongPast(hs, content, discarded, newHeader.number)
      ensures Undisturbed(old(mined), mined, Path(hs, genesis, old(head))[common.number + 1..], discarded)
    {
      var ancestor, oldHashes, newHashes := FindAncestor(hs, genesis, head, newHeader);
      common := ancestor;
      if ancestor.number < clearIdx {
        clearIdx := ancestor.number;
      }
      ghost var v := V();
      ok, txc := Search(hs, genesis, oldHashes, newHashes, ancestor, newHeader.hash, fetch);
      found := mined;
      discarded := Finish(hs, genesis, ok, newHeader.number, canon, v.mined,
                          Path(hs, genesis, v.head)[ancestor.number + 1..]);
      ReorgIs(hs, genesis, content, fetch, canon, newHeader, old(V()), v, v.clearIdx, V(),
              Reorg(ok, txc, discarded, common, found));
    }

    /** The end of reorgOnNewHead: old lists are discarded, if all went well. */
    method Finish(ghost hs: Headers, ghost genesis: Hash, ok: bool, number: nat, canon: nat -> Hash,
                  ghost mined0: Mined, ghost but: seq<Hash>)
        returns (ghost discarded: set<Tx>)
      requires Valid(hs, genesis) && WellNumbered(hs, canon) && Undisturbed(mined0, mined, but, {})
      modifies this`mined, this`clearIdx, this`tracked
      ensures Valid(hs, genesis) && tracked == old(tracked) - discarded && discarded !! pending
      ensures LongPast(hs, content, discarded, number) && Undisturbed(mined0, mined, but, discarded)
      ensures IsFinished(ok, old(mined), mined, discarded, old(clearIdx), clearIdx, number, canon)
    {
      discarded := {};
      if ok {
        discarded := Forget(hs, genesis, number, canon, mined0, but);
      } else {
        assert mined == mined - {} && AllListed(mined, {}) == {};
      }
    }

    /** The part of reorgOnNewHead that rolls back the old branch and searches the new one. */
    method Search(ghost hs: Headers, ghost genesis: Hash, oldHashes: seq<Hash>, newHashes: seq<Hash>, ancestor: Header,
                  ghost newHead: Hash, fetch: Hash -> Fetched)
        returns (ok: bool, txc: Changes)
      requires Valid(hs, genesis) && newHead in hs && Genuine(fetch, content)
      requires IsLastCommon(hs, genesis, head, newHead, ancestor)
      requires IsDown(oldHashes, Path(hs, genesis, head), ancestor.number)
      requires IsDown(newHashes, Path(hs, genesis, newHead), ancestor.number)
      modifies this`pending, this`mined, this`head
      ensures Valid(hs, genesis) && txc == Net(old(pending), pending)
      ensures (head, pending, mined, ancestor, ok) in Searches(hs, genesis, content, fetch, newHead, old(V()))
      ensures Searched(pending, Path(hs, genesis, head), ancestor.number, content) && (ok ==> head == newHead)
      ensures Undisturbed(old(mined), mined, Path(hs, genesis, old(head))[ancestor.number + 1..], {})
    {
      ghost var p, n, before := Path(hs, genesis, head), ancestor.number, pending;
      txc := RollbackTo(hs, genesis, oldHashes, ancestor);
      ghost var lists, again, at := mined, pending, 0;
      ok, txc, at := CheckAll(hs, genesis, newHashes, newHead, n, fetch, txc, before);
      assert Checked(lists, again, Path(hs, genesis, newHead), n, at, head, pending, mined, fetch, content);
      UndisturbedTwice(old(mined), lists, mined, p[n + 1..], {});
      ReachedIsSearched(hs, genesis, newHead, again, n, at, head, pending, fetch, content, ok);
      assert IsSearch(hs, genesis, content, fetch, newHead, old(V()), head, pending, mined, ancestor, ok);
    }

    method Forget(ghost hs: Headers, ghost genesis: Hash, number: nat, canon: nat -> Hash, ghost mined0: Mined,
                  ghost but: seq<Hash>)
        returns (ghost discarded: set<Tx>)
      requires Valid(hs, genesis) && WellNumbered(hs, canon) && Undisturbed(mined0, mined, but, {})
      modifies this`mined, this`clearIdx, this`tracked
      ensures Valid(hs, genesis) && tracked == old(tracked) - discarded && discarded !! pending
      ensures LongPast(hs, content, discarded, number) && Undisturbed(mined0, mined, but, discarded)
      ensures mined == old(mined) - Canonical(canon, old(clearIdx), number - TX_PERMANENT)
      ensures discarded == AllListed(old(mined), Canonical(canon, old(clearIdx), number - TX_PERMANENT))
      ensures clearIdx == if number > old(clearIdx) + TX_PERMANENT then number - TX_PERMANENT else old(clearIdx)
    {
      discarded := ClearOld(hs, genesis, number, canon);
      OldIsPast(hs, old(mined), content, discarded, number);
      UndisturbedTwice(mined0, old(mined), mined, but, discarded);
    }

    /**
      add: a valid transaction that is not pending becomes so, and is followed. It is not valid if it is in a block of
      the chain's current header, since its nonce is used up then. Afterwards every followed transaction is in one place
      if and only if this one was not listed with a block that has left the chain of the current header.
     */
    method Add(tx: Tx, valid: bool, ghost current: Hash, ghost hs: Headers, ghost genesis: Hash) returns (ok: bool)
      requires Valid(hs, genesis) && current in hs && (valid ==> !Included(Path(hs, genesis, current), content, tx))
      modifies this`pending, this`tracked
      ensures ok <==> tx !in old(pending) && valid
      ensures pending == (if ok then old(pending) + {tx} else old(pending))
      ensures tracked == (if ok then old(tracked) + {tx} else old(tracked))
      ensures Valid(hs, genesis) <==> !ok || !LeftBehind(mined, Path(hs, genesis, current), tx)
      ensures head in Path(hs, genesis, current) ==> Valid(hs, genesis)
    {
      if tx in pending || !valid {
        return false;
      }
      PlacedIff(tracked, pending, mined, tx);
      MinedLeftBehind(hs, genesis, head, current, mined, content, tx);
      pending, tracked := pending + {tx}, tracked + {tx};
      ok := true;
    }

    /** RemoveTx: a pending transaction is given up. */
    method RemoveTx(tx: Tx, ghost hs: Headers, ghost genesis: Hash)
      requires Valid(hs, genesis)
      modifies this`pending, this`tracked
      ensures Valid(hs, genesis) && pending == old(pending) - {tx}
      ensures tracked == if tx in old(pending) then old(tracked) - {tx} else old(tracked)
    {
      GivenUp(tracked, pending, mined, tx);
      tracked := if tx in pending then tracked - {tx} else tracked;
      pending := pending - {tx};
    }

    /** An addition that is accepted although the transaction is listed as mined. */
    predicate Unsafe(step: Step)
      reads this
    {
      step.Add? && step.valid && step.tx !in pending && IsMined(mined, step.tx)
    }

    /**
      Any run of steps, with more and more headers, up to the first addition of a transaction that is still listed with
      a block that has left the chain of the current header.
     */
    method Run(steps: seq<Step>, ghost hs: Headers, ghost genesis: Hash)
        returns (done: nat, ghost more: Headers, ghost views: seq<View>, ghost known: seq<Headers>,
                 ghost notes: seq<Option<Reorg>>)
      requires Valid(hs, genesis) && HeadersGrow(steps, hs, genesis, content)
      modifies this
      ensures Extends(hs, more) && Valid(more, genesis) && done <= |steps|
      ensures IsRun(steps, views, known, notes, genesis, content, done) && views[0] == old(V()) && views[done] == V()
      ensures done < |steps| ==>
                && Unsafe(steps[done]) && steps[done].current in more
                && LeftBehind(mined, Path(more, genesis, steps[done].current), steps[done].tx)
    {
      more, done, views, known, notes := hs, 0, [V()], [], [];
      while done < |steps|
        invariant done <= |steps| && Extends(hs, more) && Valid(more, genesis)
        invariant HeadersGrow(steps[done..], more, genesis, content)
        invariant IsRun(steps, views, known, notes, genesis, content, done) && views[0] == old(V())
        invariant views[done] == V()
      {
        assert steps[done..][1..] == steps[done + 1..];
        if Unsafe(steps[done]) {
          MinedLeftBehind(more, genesis, head, steps[done].current, mined, content, steps[done].tx);
          return;
        }
        ghost var note;
        more, note := Do(steps[done], steps[done..], more, genesis);
        OneStepMore(steps, views, known, notes, genesis, content, done, V(), more, note);
        views, known, notes := views + [V()], known + [more], notes + [note];
        done := done + 1;
      }
    }

    /** One step. */
    method Do(step: Step, ghost steps: seq<Step>, ghost hs: Headers, ghost genesis: Hash)
        returns (ghost more: Headers, ghost note: Option<Reorg>)
      requires Valid(hs, genesis) && steps != [] && steps[0] == step && HeadersGrow(steps, hs, genesis, content)
      requires !Unsafe(step)
      modifies this
      ensures Extends(hs, more) && Valid(more, genesis) && HeadersGrow(steps[1..], more, genesis, content)
      ensures IsStep(more, genesis, content, old(V()), V(), step, note)
    {
      more, note := hs, None;
      match step
      case Add(tx, valid, current) =>
        MinedLeftBehind(hs, genesis, head, current, mined, content, tx);
        var ok := Add(tx, valid, current, hs, genesis);
      case Remove(tx) =>
        RemoveTx(tx, hs, genesis);
      case NewHead(headers, header, fetch, canon) =>
        PathStable(hs, headers, genesis, head);
        more := headers;
        ghost var discarded, common, found;
        var ok, txc;
        ok, txc, discarded, common, found := ReorgOnNewHead(headers, genesis, header, fetch, canon);
        note := Some(Reorg(ok, txc, discarded, common, found));
    }
  }

  /** The views during a run, step by step, with the headers known after each. */
  ghost predicate IsRun(steps: seq<Step>, views: seq<View>, known: seq<Headers>, notes: seq<Option<Reorg>>,
                        genesis: Hash, content: Hash -> seq<Tx>, n: nat) {
    && n <= |steps| && |views| == n + 1 && |known| == |notes| == n
    && forall i | 0 <= i < n :: IsStep(known[i], genesis, content, views[i], views[i + 1], steps[i], notes[i])
  }

  lemma OneStepMore(steps: seq<Step>, views: seq<View>, known: seq<Headers>, notes: seq<Option<Reorg>>, genesis: Hash,
                    content: Hash -> seq<Tx>, i: nat, w: View, hs: Headers, note: Option<Reorg>)
    requires i < |steps| && IsRun(steps, views, known, notes, genesis, content, i)
    requires IsStep(hs, genesis, content, views[i], w, steps[i], note)
    ensures IsRun(steps, views + [w], known + [hs], notes + [note], genesis, content, i + 1)
  {
    var views', known', notes' := views + [w], known + [hs], notes + [note];
    forall k | 0 <= k < i + 1
      ensures IsStep(known'[k], genesis, content, views'[k], views'[k + 1], steps[k], notes'[k])
    {
      if k < i {
        assert views'[k] == views[k] && views'[k + 1] == views[k + 1] && known'[k] == known[k] && notes'[k] == notes[k];
      }
    }
  }

  /** A step of the pool: a transaction is added or given up, or there is a new head, with more headers. */
  datatype Step =
    | Add(tx: Tx, valid: bool, current: Hash)
    | Remove(tx: Tx)
    | NewHead(headers: Headers, header: Header, fetch: Hash -> Fetched, canon: nat -> Hash)

  /** Headers are only added, what is fetched is genuine, and what the current header's chain has is not valid. */
  ghost predicate HeadersGrow(steps: seq<Step>, hs: Headers, genesis: Hash, content: Hash -> seq<Tx>)
    requires Linked(hs, genesis)
  {
    if steps == [] then true
    else
      match steps[0]
      case Add(tx, valid, current) =>
        && current in hs && (valid ==> !Included(Path(hs, genesis, current), content, tx))
        && HeadersGrow(steps[1..], hs, genesis, content)
      case Remove(_) => HeadersGrow(steps[1..], hs, genesis, content)
      case NewHead(headers, header, fetch, canon) =>
        && Linked(headers, genesis) && Extends(hs, headers) && header.hash in headers && headers[header.hash] == header
        && Genuine(fetch, content) && WellNumbered(headers, canon)
        && HeadersGrow(steps[1..], headers, genesis, content)
  }

  predicate IsMined(mined: Mined, tx: Tx) {
    exists h | h in mined :: MinedIn(mined, h, tx)
  }

  /** A block of the chain p has the transaction. */
  ghost predicate Included(p: seq<Hash>, content: Hash -> seq<Tx>, tx: Tx) {
    exists k | 0 <= k < |p| :: tx in content(p[k])
  }

  /** The transaction is listed with a block that is not on the chain p. */
  ghost predicate LeftBehind(mined: Mined, p: seq<Hash>, tx: Tx) {
    exists h :: MinedIn(mined, h, tx) && h !in p
  }

  /** A transaction that is valid for the current header can only be listed with a block that has left its chain. */
  lemma MinedLeftBehind(hs: Headers, genesis: Hash, head: Hash, current: Hash, mined: Mined, content: Hash -> seq<Tx>,
                        tx: Tx)
    requires Linked(hs, genesis) && head in hs && current in hs
    requires OnChain(mined, Path(hs, genesis, head)) && FromBlocks(mined, content)
    ensures !Included(Path(hs, genesis, current), content, tx) ==>
              (IsMined(mined, tx) <==> LeftBehind(mined, Path(hs, genesis, current), tx))
    ensures head in Path(hs, genesis, current) ==> !LeftBehind(mined, Path(hs, genesis, current), tx)
  {
    var p := Path(hs, genesis, current);
    if IsMined(mined, tx) && !Included(p, content, tx) {
      var h :| h in mined && MinedIn(mined, h, tx);
      assert tx in SetOf(mined[h]) && tx in SetOf(content(h));
      assert h !in p;
    }
    if head in p {
      var k :| 0 <= k < |p| && p[k] == head;
      PathPrefix(hs, genesis, current, k);
      assert Path(hs, genesis, head) == p[..k + 1];
    }
  }

  lemma PlacedIff(tracked: set<Tx>, pending: set<Tx>, mined: Mined, tx: Tx)
    requires Placed(tracked, pending, mined) && tx !in pending
    ensures Placed(tracked + {tx}, pending + {tx}, mined) <==> !IsMined(mined, tx)
  {
    if IsMined(mined, tx) {
      var h :| MinedIn(mined, h, tx);
      assert tx in pending + {tx};
    }
  }

  lemma GivenUp(tracked: set<Tx>, pending: set<Tx>, mined: Mined, tx: Tx)
    requires Placed(tracked, pending, mined)
    ensures Placed(if tx in pending then tracked - {tx} else tracked, pending - {tx}, mined)
  {
    if tx in pending {
      forall t | t in tracked - {tx} && t !in pending - {tx}
        ensures exists h :: MinedIn(mined, h, t)
      {
        assert t !in pending;
      }
    } else {
      assert pending - {tx} == pending;
    }
  }

  lemma NotPending(tracked: set<Tx>, pending: set<Tx>, mined: Mined, hash: Hash)
    requires Placed(tracked, pending, mined) && hash in mined
    ensures SetOf(mined[hash]) !! pending
  {
    forall tx | tx in mined[hash]
      ensures tx !in pending
    {
      assert MinedIn(mined, hash, tx);
    }
  }

  lemma LocalFacts(list: seq<Tx>, body: seq<Tx>, pending: set<Tx>)
    requires forall tx :: tx in list <==> tx in body && tx in pending
    ensures SetOf(list) <= pending && SetOf(list) <= SetOf(body) && pending - SetOf(list) == pending - SetOf(body)
    ensures SetOf(list) == pending * SetOf(body)
    ensures list == [] <==> SetOf(body) !! pending
    ensures list == [] ==> pending - SetOf(body) == pending
  {
    if list != [] {
      assert list[0] in SetOf(body) && list[0] in pending;
    }
  }

  lemma SearchedOneMore(pending: set<Tx>, pending': set<Tx>, p: seq<Hash>, n: nat, content: Hash -> seq<Tx>, h: Hash)
    requires Searched(pending, p, n, content) && pending' == pending - SetOf(content(h))
    ensures Searched(pending', p + [h], n, content)
  {
  }

  /** The transactions of a block that are pending here. */
  method Local(body: seq<Tx>, pending: set<Tx>) returns (list: seq<Tx>)
    requires Distinct(body)
    ensures Distinct(list) && forall tx :: tx in list <==> tx in body && tx in pending
  {
    list := [];
    for i := 0 to |body|
      invariant Distinct(list) && forall tx :: tx in list <==> tx in body[..i] && tx in pending
    {
      assert body[..i + 1] == body[..i] + [body[i]];
      assert body[i] !in body[..i];
      if body[i] in pending {
        list := list + [body[i]];
      }
    }
    assert body[..|body|] == body;
  }

  lemma OnChainOneMore(mined: Mined, mined': Mined, p: seq<Hash>, h: Hash)
    requires OnChain(mined, p) && mined'.Keys <= mined.Keys + {h}
    ensures OnChain(mined', p + [h])
  {
  }

  lemma LeftBelow(mined: Mined, hashes: seq<Hash>, p: seq<Hash>, n: nat)
    requires OnChain(mined, p) && IsDown(hashes, p, n) && forall k | 0 <= k < |hashes| :: hashes[k] !in mined
    ensures OnChain(mined, p[..n + 1])
  {
    forall j | n < j < |p|
      ensures p[j] !in mined
    {
      assert IsAt(hashes[|p| - 1 - j], p, j);
    }
    forall h | h in mined
      ensures h in p[..n + 1]
    {
      var j :| 0 <= j < |p| && p[j] == h;
      assert p[..n + 1][j] == h;
    }
  }

  /** The next block up is a child of the head, and not yet on its chain. */
  lemma {:induction false} NextOnChain(hs: Headers, genesis: Hash, newHead: Hash, hashes: seq<Hash>, n: nat, i: nat,
                                       head: Hash, mined: Mined)
    requires Linked(hs, genesis) && newHead in hs && IsDown(hashes, Path(hs, genesis, newHead), n) && i < |hashes|
    requires head in hs && head == Path(hs, genesis, newHead)[hs[newHead].number - i - 1]
    requires OnChain(mined, Path(hs, genesis, head))
    ensures hashes[i] in hs && hashes[i] == Path(hs, genesis, newHead)[hs[newHead].number - i] && hashes[i] !in mined
    ensures Path(hs, genesis, hashes[i]) == Path(hs, genesis, head) + [hashes[i]]
  {
    var p, m := Path(hs, genesis, newHead), hs[newHead].number - i;
    assert IsAt(hashes[i], p, |p| - 1 - i);
    PathPrefix(hs, genesis, newHead, m);
    PathPrefix(hs, genesis, newHead, m - 1);
    if hashes[i] in mined {
      var j :| 0 <= j < m && Path(hs, genesis, head)[j] == hashes[i];
      PathPrefix(hs, genesis, head, j);
    }
  }

  /** The canonical blocks with these numbers. */
  function Canonical(canon: nat -> Hash, from: nat, upto: int): set<Hash> {
    set i: nat | from <= i < upto :: canon(i)
  }

  lemma CanonicalOneMore(mined0: Mined, mined: Mined, canon: nat -> Hash, from: nat, i: nat)
    requires from <= i && mined == mined0 - Canonical(canon, from, i)
    ensures mined - {canon(i)} == mined0 - Canonical(canon, from, i + 1)
    ensures AllListed(mined0, Canonical(canon, from, i + 1))
              == AllListed(mined0, Canonical(canon, from, i)) + ListOf(mined, canon(i))
  {
    assert Canonical(canon, from, i + 1) == Canonical(canon, from, i) + {canon(i)};
    AllListedOneMore(mined0, Canonical(canon, from, i), canon(i));
  }

  lemma AllListedOneMore(mined: Mined, hashes: set<Hash>, h: Hash)
    ensures AllListed(mined, hashes + {h}) == AllListed(mined, hashes) + ListOf(mined - hashes, h)
  {
    if h in hashes {
      assert hashes + {h} == hashes;
    } else {
      assert ListOf(mined - hashes, h) == ListOf(mined, h);
    }
  }

  /**
    The lists of canonical blocks with numbers from `from` to before `upto` are gone, and their transactions with them.
   */
  ghost predicate Clearing(hs: Headers, mined0: Mined, mined: Mined, discarded: set<Tx>, number: nat,
                           canon: nat -> Hash, from: nat, upto: nat)
  {
    && mined == mined0 - Canonical(canon, from, upto) && discarded == AllListed(mined0, Canonical(canon, from, upto))
    && OnlyOld(hs, mined0, discarded, number) && Undisturbed(mined0, mined, [], discarded)
  }

  lemma NoneCleared(hs: Headers, mined: Mined, number: nat, canon: nat -> Hash, from: nat)
    ensures Clearing(hs, mined, mined, {}, number, canon, from, from)
  {
    assert Canonical(canon, from, from) == {};
  }

  lemma NoneAt(hs: Headers, mined0: Mined, mined: Mined, discarded: set<Tx>, number: nat,
               canon: nat -> Hash, from: nat, i: nat)
    requires from <= i && Clearing(hs, mined0, mined, discarded, number, canon, from, i) && canon(i) !in mined
    ensures Clearing(hs, mined0, mined, discarded, number, canon, from, i + 1)
  {
    CanonicalOneMore(mined0, mined, canon, from, i);
  }

  lemma OneMoreOld(hs: Headers, genesis: Hash, head: Hash, mined0: Mined, mined: Mined, discarded: set<Tx>, number: nat,
                   canon: nat -> Hash, from: nat, i: nat)
    requires Linked(hs, genesis) && head in hs && OnChain(mined, Path(hs, genesis, head)) && WellNumbered(hs, canon)
    requires Clearing(hs, mined0, mined, discarded, number, canon, from, i)
    requires canon(i) in mined && from <= i && i + TX_PERMANENT < number
    ensures Clearing(hs, mined0, mined - {canon(i)}, discarded + SetOf(mined[canon(i)]), number, canon, from, i + 1)
  {
    CanonicalOneMore(mined0, mined, canon, from, i);
    var hash, p := canon(i), Path(hs, genesis, head);
    var j :| 0 <= j < |p| && p[j] == hash;
    PathPrefix(hs, genesis, head, j);
    forall tx | tx in discarded + SetOf(mined[hash])
      ensures exists h :: MinedIn(mined0, h, tx) && h in hs && hs[h].number + TX_PERMANENT < number
    {
      if tx !in discarded {
        assert MinedIn(mined0, hash, tx);
      }
    }
  }

  // ---------- A transaction that is added twice ----------

  /** Two blocks on genesis, of which the first has transaction 7. */
  function TwoForks(): Headers {
    map[1 := Header(1, NO_HASH, 0, 1), 2 := Header(2, 1, 1, 1), 3 := Header(3, 1, 1, 2)]
  }

  function BodyOf(h: Hash): seq<Tx> {
    if h == 2 then [7] else []
  }

  lemma TwoForksLinked()
    ensures Linked(TwoForks(), 1)
    ensures Path(TwoForks(), 1, 1) == [1] && Path(TwoForks(), 1, 2) == [1, 2] && Path(TwoForks(), 1, 3) == [1, 3]
  {
    assert Path(TwoForks(), 1, 2) == Path(TwoForks(), 1, 1) + [2];
    assert Path(TwoForks(), 1, 3) == Path(TwoForks(), 1, 1) + [3];
  }

  /**
    The transaction is added, mined in block 2, and added again when the chain has moved on to block 3 and the pool has
    not been told yet: it is pending and in the list of block 2.
   */
  method AddedTwice() returns (pool: Pool)
    ensures 7 in pool.pending && MinedIn(pool.mined, 2, 7)
    ensures Linked(TwoForks(), 1) && pool.head == 2 && !pool.Valid(TwoForks(), 1)
  {
    TwoForksLinked();
    pool := new Pool(Header(1, NO_HASH, 0, 1), TwoForks(), 1, (h: Hash) => BodyOf(h));
    var ok := pool.Add(7, true, 1, TwoForks(), 1);
    assert pool.pending == {7};
    MineSeven(pool);
    ok := pool.Add(7, true, 3, TwoForks(), 1);
  }

  ghost predicate AreBodies(content: Hash -> seq<Tx>) {
    forall h {:trigger content(h)} :: content(h) == BodyOf(h)
  }

  ghost predicate FetchesBodies(fetch: Hash -> Fetched) {
    forall h {:trigger fetch(h)} :: fetch(h) == Fetched(Some(BodyOf(h)), true)
  }

  lemma BodiesAreGenuine(fetch: Hash -> Fetched, content: Hash -> seq<Tx>)
    requires FetchesBodies(fetch) && AreBodies(content)
    ensures Genuine(fetch, content)
  {
  }

  /** The pool is told of block 2. */
  method MineSeven(pool: Pool)
    requires Linked(TwoForks(), 1) && pool.Valid(TwoForks(), 1) && pool.head == 1 && pool.pending == {7}
    requires AreBodies(pool.content)
    modifies pool
    ensures pool.Valid(TwoForks(), 1) && pool.head == 2 && 7 !in pool.pending && MinedIn(pool.mined, 2, 7)
  {
    TwoForksLinked();
    var fetch, canon := (h: Hash) => Fetched(Some(BodyOf(h)), true), (n: nat) => NO_HASH;
    BodiesAreGenuine(fetch, pool.content);
    var ok, txc, discarded, common, found := pool.ReorgOnNewHead(TwoForks(), 1, Header(2, 1, 1, 1), fetch, canon);
    assert common.number == 0 && pool.head == 2;
    assert 7 in BodyOf(2) && 7 !in pool.pending && discarded == {};
    var h :| MinedIn(pool.mined, h, 7);
    assert 7 in SetOf(BodyOf(h));
  }
}
