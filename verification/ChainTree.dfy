/**
  Headers linked by parent hash: the block tree below a genesis header, the path from
  genesis to a header, and the last common ancestor of two headers.
 */
module ChainTree {

  /** Hashes are numbers; 0 is the empty hash, which is the hash of no header. */
  type Hash = nat
  const NO_HASH: Hash := 0

  datatype Header = Header(hash: Hash, parent: Hash, number: nat, difficulty: int)

  type Headers = map<Hash, Header>

  /** Every stored header but genesis has its parent stored, one number below it. */
  ghost predicate Linked(hs: Headers, genesis: Hash) {
    && genesis in hs
    && hs[genesis].number == 0
    && hs[genesis].parent == NO_HASH
    && NO_HASH !in hs
    && (forall h {:trigger HeaderOk(hs, genesis, h)} | h in hs :: HeaderOk(hs, genesis, h))
  }

  ghost predicate HeaderOk(hs: Headers, genesis: Hash, h: Hash)
    requires h in hs
  {
    && hs[h].hash == h
    && (h != genesis ==> hs[h].parent in hs && hs[h].number == hs[hs[h].parent].number + 1)
  }

  /** The hashes from genesis to h. */
  ghost function Path(hs: Headers, genesis: Hash, h: Hash): (p: seq<Hash>)
    requires Linked(hs, genesis) && h in hs
    ensures |p| == hs[h].number + 1
    ensures p[|p| - 1] == h
    decreases hs[h].number
  {
    if h == genesis then [genesis]
    else
      assert HeaderOk(hs, genesis, h);
      Path(hs, genesis, hs[h].parent) + [h]
  }

  /** A header on a path has its index as number, and its own path is a prefix. */
  lemma {:induction false} PathPrefix(hs: Headers, genesis: Hash, h: Hash, n: nat)
    requires Linked(hs, genesis) && h in hs && n <= hs[h].number
    ensures var a := Path(hs, genesis, h)[n];
            a in hs && hs[a].number == n && Path(hs, genesis, a) == Path(hs, genesis, h)[..n + 1]
    decreases hs[h].number
  {
    if n < hs[h].number {
      assert HeaderOk(hs, genesis, h);
      PathPrefix(hs, genesis, hs[h].parent, n);
    }
  }

  /** The step from one number of a path down to the one below goes to the parent. */
  lemma {:induction false} PathParent(hs: Headers, genesis: Hash, h: Hash, n: nat)
    requires Linked(hs, genesis) && h in hs && 0 < n <= hs[h].number
    ensures var p := Path(hs, genesis, h);
            p[n] in hs && p[n] != genesis && hs[p[n]].number == n && hs[p[n]].parent == p[n - 1]
  {
    PathPrefix(hs, genesis, h, n);
    var a := Path(hs, genesis, h)[n];
    assert HeaderOk(hs, genesis, a);
    assert Path(hs, genesis, a)[n - 1] == Path(hs, genesis, hs[a].parent)[n - 1];
  }

  lemma {:induction false} PathStart(hs: Headers, genesis: Hash, h: Hash)
    requires Linked(hs, genesis) && h in hs
    ensures Path(hs, genesis, h)[0] == genesis
  {
    PathPrefix(hs, genesis, h, 0);
    var a := Path(hs, genesis, h)[0];
    assert HeaderOk(hs, genesis, a);
  }

  lemma {:induction false} PathHash(hs: Headers, genesis: Hash, h: Hash, n: nat)
    requires Linked(hs, genesis) && h in hs && n <= hs[h].number
    ensures var a := Path(hs, genesis, h)[n];
            a in hs && hs[a].number == n && hs[a].hash == a
  {
    PathPrefix(hs, genesis, h, n);
    var a := Path(hs, genesis, h)[n];
    assert HeaderOk(hs, genesis, a);
  }

  /** Paths that meet at some number agree below it. */
  lemma {:induction false} PathsMeet(hs: Headers, genesis: Hash, a: Hash, b: Hash, n: nat)
    requires Linked(hs, genesis) && a in hs && b in hs
    requires n <= hs[a].number && n <= hs[b].number
    requires Path(hs, genesis, a)[n] == Path(hs, genesis, b)[n]
    ensures Path(hs, genesis, a)[..n + 1] == Path(hs, genesis, b)[..n + 1]
  {
    PathPrefix(hs, genesis, a, n);
    PathPrefix(hs, genesis, b, n);
  }

  ghost predicate Extends(hs: Headers, more: Headers) {
    forall h | h in hs :: h in more && more[h] == hs[h]
  }

  /** Storing more headers does not change the path of a stored one. */
  lemma {:induction false} PathStable(hs: Headers, more: Headers, genesis: Hash, h: Hash)
    requires Linked(hs, genesis) && Linked(more, genesis) && Extends(hs, more) && h in hs
    ensures Path(more, genesis, h) == Path(hs, genesis, h)
    decreases hs[h].number
  {
    if h != genesis {
      assert HeaderOk(hs, genesis, h);
      PathStable(hs, more, genesis, hs[h].parent);
    }
  }

  /** Storing a header whose parent is stored, one number below it, keeps the tree linked. */
  lemma AddKeepsLinked(hs: Headers, genesis: Hash, header: Header)
    requires Linked(hs, genesis) && CanAdd(hs, genesis, header)
    ensures Linked(hs[header.hash := header], genesis)
    ensures Extends(hs, hs[header.hash := header])
  {
    var more := hs[header.hash := header];
    forall h | h in more
      ensures HeaderOk(more, genesis, h)
    {
      if h != header.hash {
        assert HeaderOk(hs, genesis, h);
      }
    }
  }

  /** The parent is stored and numbered one below; a hash belongs to one header only. */
  ghost predicate CanAdd(hs: Headers, genesis: Hash, header: Header) {
    && header.parent in hs
    && header.number == hs[header.parent].number + 1
    && header.hash != NO_HASH
    && (header.hash in hs ==> hs[header.hash] == header)
    && header.hash != genesis
  }

  // ---------- The last common ancestor ----------

  /** The stored header a is on the path from genesis to h. */
  ghost predicate IsAncestor(hs: Headers, genesis: Hash, h: Hash, a: Header)
    requires Linked(hs, genesis) && h in hs
  {
    && a.hash in hs && hs[a.hash] == a
    && a.number <= hs[h].number && Path(hs, genesis, h)[a.number] == a.hash
  }

  lemma IsOwnAncestor(hs: Headers, genesis: Hash, h: Hash)
    requires Linked(hs, genesis) && h in hs
    ensures IsAncestor(hs, genesis, h, hs[h])
  {
    assert HeaderOk(hs, genesis, h);
  }

  /** The parent of an ancestor above genesis is stored, and an ancestor one number below. */
  lemma {:induction false} ParentIsAncestor(hs: Headers, genesis: Hash, h: Hash, a: Header)
    requires Linked(hs, genesis) && h in hs && IsAncestor(hs, genesis, h, a) && a.number > 0
    ensures a.parent in hs && hs[a.parent].number == a.number - 1
    ensures IsAncestor(hs, genesis, h, hs[a.parent])
  {
    PathParent(hs, genesis, h, a.number);
    PathPrefix(hs, genesis, h, a.number - 1);
    assert HeaderOk(hs, genesis, a.parent);
  }

  /** From number n upwards, the paths of a and b have no header in common. */
  ghost predicate PartedFrom(hs: Headers, genesis: Hash, a: Hash, b: Hash, n: nat)
    requires Linked(hs, genesis) && a in hs && b in hs
  {
    forall k {:trigger Path(hs, genesis, a)[k]} | n <= k <= hs[a].number && k <= hs[b].number ::
      Path(hs, genesis, a)[k] != Path(hs, genesis, b)[k]
  }

  /** c is on both paths, and the paths have parted above it. */
  ghost predicate IsLastCommon(hs: Headers, genesis: Hash, a: Hash, b: Hash, c: Header)
    requires Linked(hs, genesis) && a in hs && b in hs
  {
    && IsAncestor(hs, genesis, a, c)
    && IsAncestor(hs, genesis, b, c)
    && PartedFrom(hs, genesis, a, b, c.number + 1)
  }

  lemma {:induction false} PartsBelow(hs: Headers, genesis: Hash, a: Hash, b: Hash, x: Header, y: Header)
    requires Linked(hs, genesis) && a in hs && b in hs
    requires IsAncestor(hs, genesis, a, x) && IsAncestor(hs, genesis, b, y) && x.number == y.number && x != y
    requires PartedFrom(hs, genesis, a, b, x.number + 1)
    ensures PartedFrom(hs, genesis, a, b, x.number)
    ensures x.number > 0
  {
    PathStart(hs, genesis, a);
    PathStart(hs, genesis, b);
  }

  /** FindCommonAncestor; in a linked tree it never runs out of headers. */
  method FindCommonAncestor(hs: Headers, ghost genesis: Hash, first: Hash, second: Hash) returns (c: Header)
    requires Linked(hs, genesis) && first in hs && second in hs
    ensures IsLastCommon(hs, genesis, first, second, c)
  {
    var a, b := hs[first], hs[second];
    IsOwnAncestor(hs, genesis, first);
    IsOwnAncestor(hs, genesis, second);
    while a.number > b.number
      invariant IsAncestor(hs, genesis, first, a)
      invariant a == hs[first] || a.number >= b.number
    {
      ParentIsAncestor(hs, genesis, first, a);
      a := hs[a.parent];
    }
    while a.number < b.number
      invariant IsAncestor(hs, genesis, second, b)
      invariant b == hs[second] || b.number >= a.number
    {
      ParentIsAncestor(hs, genesis, second, b);
      b := hs[b.parent];
    }
    while a.hash != b.hash
      invariant a.number == b.number && IsAncestor(hs, genesis, first, a) && IsAncestor(hs, genesis, second, b)
      invariant PartedFrom(hs, genesis, first, second, a.number + 1)
      decreases a.number
    {
      PartsBelow(hs, genesis, first, second, a, b);
      ParentIsAncestor(hs, genesis, first, a);
      ParentIsAncestor(hs, genesis, second, b);
      a := hs[a.parent];
      b := hs[b.parent];
    }
    c := a;
  }
}
