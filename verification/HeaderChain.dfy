/**
  HeaderChain of core/headerchain.go: headers are stored with their total difficulty,
  and the canonical number index follows the header with the highest one. When a new
  header ties with the head, a coin decides.
 */
module HeaderChain {
  import opened Options
  import opened ChainTree

  datatype Status = NonStatTy | CanonStatTy | SideStatTy
  /** The stored headers, their total difficulties, and the head. */
  datatype View = View(headers: Headers, tds: map<Hash, int>, head: Hash)

  /** Total difficulties add up along the tree, and the head has the highest one. */
  ghost predicate Good(v: View, genesis: Hash) {
    && Linked(v.headers, genesis)
    && v.tds.Keys == v.headers.Keys
    && v.head in v.headers
    && (forall h {:trigger TdOk(v, genesis, h)} | h in v.headers :: TdOk(v, genesis, h))
  }

  ghost predicate TdOk(v: View, genesis: Hash, h: Hash)
    requires h in v.headers && v.tds.Keys == v.headers.Keys && v.head in v.headers
  {
    && (h != genesis ==>
          v.headers[h].parent in v.headers && v.tds[h] == v.tds[v.headers[h].parent] + v.headers[h].difficulty)
    && v.tds[h] <= v.tds[v.head]
  }

  /** The total difficulty of a path, from genesis up, added up afresh. */
  ghost function Sum(hs: Headers, genesis: Hash, h: Hash, start: int): int
    requires Linked(hs, genesis) && h in hs
    decreases hs[h].number
  {
    if h == genesis then start
    else
      assert HeaderOk(hs, genesis, h);
      Sum(hs, genesis, hs[h].parent, start) + hs[h].difficulty
  }

  /** The stored total difficulty of a header is that of genesis plus all difficulties on its path. */
  lemma {:induction false} TdIsSum(v: View, genesis: Hash, h: Hash)
    requires Good(v, genesis) && h in v.headers
    ensures v.tds[h] == Sum(v.headers, genesis, h, v.tds[genesis])
    decreases v.headers[h].number
  {
    if h != genesis {
      assert HeaderOk(v.headers, genesis, h);
      assert TdOk(v, genesis, h);
      TdIsSum(v, genesis, v.headers[h].parent);
    }
  }

  // ---------- What WriteHeader does to the view ----------

  predicate Better(v: View, td: int, coin: bool)
    requires v.head in v.tds
  {
    td > v.tds[v.head] || (td == v.tds[v.head] && coin)
  }

  function Insert(v: View, header: Header, coin: bool): View
    requires v.head in v.tds
  {
    if header.parent !in v.tds then v
    else
      var td := header.difficulty + v.tds[header.parent];
      View(v.headers[header.hash := header], v.tds[header.hash := td],
           if Better(v, td, coin) then header.hash else v.head)
  }

  /** Headers come numbered one above their parent, if that is known, and a hash belongs to one header. */
  ghost predicate WellNumbered(v: View, genesis: Hash, header: Header) {
    header.parent in v.headers ==> CanAdd(v.headers, genesis, header)
  }

  lemma InsertKeepsGood(v: View, genesis: Hash, header: Header, coin: bool)
    requires Good(v, genesis) && WellNumbered(v, genesis, header)
    ensures Good(Insert(v, header, coin), genesis)
    ensures Extends(v.headers, Insert(v, header, coin).headers)
  {
    if header.parent in v.headers {
      AddKeepsLinked(v.headers, genesis, header);
      var w := Insert(v, header, coin);
      if header.hash in v.headers {
        assert TdOk(v, genesis, header.hash);
      }
      forall h | h in w.headers
        ensures TdOk(w, genesis, h)
      {
        if h != header.hash {
          assert TdOk(v, genesis, h);
        }
      }
    }
  }

  // ---------- Runs ----------

  datatype Arrival = Arrival(header: Header, coin: bool)

  function Run(v: View, arrivals: seq<Arrival>): (w: View)
    requires v.head in v.tds
    ensures w.head in w.tds
    decreases |arrivals|
  {
    if arrivals == [] then v
    else Run(Insert(v, arrivals[0].header, arrivals[0].coin), arrivals[1..])
  }

  ghost predicate RunOk(v: View, genesis: Hash, arrivals: seq<Arrival>)
    requires v.head in v.tds
    decreases |arrivals|
  {
    arrivals != [] ==>
      && WellNumbered(v, genesis, arrivals[0].header)
      && RunOk(Insert(v, arrivals[0].header, arrivals[0].coin), genesis, arrivals[1..])
  }

  /** After any run the head has the highest total difficulty of all stored headers. */
  lemma {:induction false} EveryRunIsGood(v: View, genesis: Hash, arrivals: seq<Arrival>)
    requires Good(v, genesis) && RunOk(v, genesis, arrivals)
    ensures Good(Run(v, arrivals), genesis)
    decreases |arrivals|
  {
    if arrivals != [] {
      InsertKeepsGood(v, genesis, arrivals[0].header, arrivals[0].coin);
      EveryRunIsGood(Insert(v, arrivals[0].header, arrivals[0].coin), genesis, arrivals[1..]);
    }
  }

  /** The same headers, whatever coins are tossed. */
  predicate SameHeaders(a: seq<Arrival>, b: seq<Arrival>) {
    |a| == |b| && forall i | 0 <= i < |a| :: a[i].header == b[i].header
  }

  /** What is stored does not depend on the head or the coin. */
  lemma InsertIgnoresCoin(v: View, w: View, header: Header, c: bool, d: bool)
    requires v.head in v.tds && w.head in w.tds && v.headers == w.headers && v.tds == w.tds
    ensures var x, y := Insert(v, header, c), Insert(w, header, d);
            x.headers == y.headers && x.tds == y.tds
  {
  }

  lemma HeadsTie(v: View, w: View, genesis: Hash)
    requires Good(v, genesis) && Good(w, genesis) && v.headers == w.headers && v.tds == w.tds
    ensures v.tds[v.head] == w.tds[w.head]
  {
    assert TdOk(v, genesis, w.head) && TdOk(w, genesis, v.head);
  }

  /** The coins decide between heads of equal total difficulty and nothing else. */
  lemma {:induction false} CoinsOnlyBreakTies(v: View, w: View, genesis: Hash, a: seq<Arrival>, b: seq<Arrival>)
    requires Good(v, genesis) && Good(w, genesis) && v.headers == w.headers && v.tds == w.tds
    requires RunOk(v, genesis, a) && SameHeaders(a, b)
    ensures RunOk(w, genesis, b)
    ensures var x, y := Run(v, a), Run(w, b);
            x.headers == y.headers && x.tds == y.tds && x.tds[x.head] == y.tds[y.head]
    decreases |a|
  {
    if a == [] {
      HeadsTie(v, w, genesis);
    } else {
      var header := a[0].header;
      assert b[0].header == header;
      var x, y := Insert(v, header, a[0].coin), Insert(w, header, b[0].coin);
      assert Good(x, genesis) by { InsertKeepsGood(v, genesis, header, a[0].coin); }
      assert Good(y, genesis) by { InsertKeepsGood(w, genesis, header, b[0].coin); }
      InsertIgnoresCoin(v, w, header, a[0].coin, b[0].coin);
      CoinsOnlyBreakTies(x, y, genesis, a[1..], b[1..]);
    }
  }

  // ---------- The canonical index ----------

  /** The number index of a path. */
  function IndexOf(p: seq<Hash>): map<nat, Hash> {
    map n | 0 <= n < |p| :: p[n]
  }

  /**
    The index while WriteHeader walks down from the new head's parent: numbers above k
    already follow the new path p, those up to k the old path q, and number top, if the
    old path reaches it, is still to be overwritten.
   */
  ghost predicate Spliced(canon: map<nat, Hash>, p: seq<Hash>, q: seq<Hash>, k: int, top: nat) {
    && (forall n: nat :: n in canon <==> (n <= k && n < |q|) || k < n < |p| || (n == top && n < |q|))
    && (forall n | n in canon && k < n < |p| :: canon[n] == p[n])
    && (forall n | n in canon && n <= k && n < |q| :: canon[n] == q[n])
  }

  lemma SplicedStep(canon: map<nat, Hash>, p: seq<Hash>, q: seq<Hash>, k: nat, top: nat)
    requires k < |p| == top && Spliced(canon, p, q, k, top)
    ensures Spliced(canon[k := p[k]], p, q, k - 1, top)
  {
  }

  /** Where the old index agrees with the new path, the walk is over. */
  lemma SplicedDone(canon: map<nat, Hash>, p: seq<Hash>, q: seq<Hash>, k: nat, top: nat, hash: Hash)
    requires k < |p| == top && k < |q| && Spliced(canon, p, q, k, top)
    requires p[..k + 1] == q[..k + 1]
    ensures canon[top := hash] == IndexOf(p + [hash])
  {
    var r := p + [hash];
    assert forall n | 0 <= n <= k :: q[n] == q[..k + 1][n] == p[n];
    assert canon[top := hash].Keys == IndexOf(r).Keys;
  }

  /** The walk down from the parent has come to this hash, and the index above it follows the path of the parent. */
  ghost predicate Walking(hs: Headers, genesis: Hash, parent: Hash, head: Hash, canon: map<nat, Hash>, hash: Hash,
                          number: int, top: nat)
    requires Linked(hs, genesis) && parent in hs && head in hs
  {
    var p := Path(hs, genesis, parent);
    && 0 <= number < |p| && hash == p[number] && hash in hs && hs[hash].number == number
    && Spliced(canon, p, Path(hs, genesis, head), number, top)
  }

  /** One step of the walk: where the index disagrees, there is a parent to go on with. */
  lemma {:induction false} WalkReroute(hs: Headers, genesis: Hash, parent: Hash, head: Hash, canon: map<nat, Hash>,
                                       hash: Hash, k: nat, top: nat)
    requires Linked(hs, genesis) && parent in hs && head in hs && hs[parent].number == top - 1
    requires Walking(hs, genesis, parent, head, canon, hash, k, top) && !(k in canon && canon[k] == hash)
    ensures Walking(hs, genesis, parent, head, canon[k := hash], hs[hash].parent, k - 1, top)
  {
    PathStart(hs, genesis, parent);
    PathStart(hs, genesis, head);
    PathParent(hs, genesis, parent, k);
    PathPrefix(hs, genesis, parent, k - 1);
    SplicedStep(canon, Path(hs, genesis, parent), Path(hs, genesis, head), k, top);
  }

  lemma {:induction false} WalkDone(hs: Headers, genesis: Hash, parent: Hash, head: Hash, canon: map<nat, Hash>,
                                    hash: Hash, k: nat, header: Header)
    requires Linked(hs, genesis) && parent in hs && head in hs && hs[parent].number == header.number - 1
    requires Walking(hs, genesis, parent, head, canon, hash, k, header.number) && k in canon && canon[k] == hash
    ensures canon[header.number := header.hash] == IndexOf(Path(hs, genesis, parent) + [header.hash])
  {
    PathsMeet(hs, genesis, parent, head, k);
    SplicedDone(canon, Path(hs, genesis, parent), Path(hs, genesis, head), k, header.number, header.hash);
  }

  /** A least recently used cache: adding an entry may evict any others. */
  method CacheAdd<V>(cache: map<Hash, V>, hash: Hash, value: V) returns (c: map<Hash, V>)
    ensures hash in c && c[hash] == value
    ensures forall h | h in c && h != hash :: h in cache && c[h] == cache[h]
  {
    var evicted: set<Hash> := *;
    c := (cache - evicted)[hash := value];
  }

  ghost predicate Caches<V(!new)>(cache: map<Hash, V>, store: map<Hash, V>) {
    forall h | h in cache :: h in store && cache[h] == store[h]
  }

  class HeaderChain {
    const genesis: Hash
    var headers: Headers
    var tds: map<Hash, int>
    var canon: map<nat, Hash>
    var head: Hash
    var headerCache: Headers
    var tdCache: map<Hash, int>

    ghost function V(): View
      reads this`headers, this`tds, this`head
    {
      View(headers, tds, head)
    }

    /** The index is defined exactly on the numbers of the head's path, and is that path. */
    ghost predicate Valid()
      reads this
    {
      && Good(V(), genesis)
      && canon == IndexOf(Path(headers, genesis, head))
      && Caches(headerCache, headers)
      && Caches(tdCache, tds)
    }

    constructor (header: Header, td: int)
      requires header.number == 0 && header.parent == NO_HASH && header.hash != NO_HASH
      ensures Valid() && V() == View(map[header.hash := header], map[header.hash := td], header.hash)
      ensures genesis == header.hash
    {
      genesis := header.hash;
      headers, tds, canon, head :=
        map[header.hash := header], map[header.hash := td], map[0 := header.hash], header.hash;
      headerCache, tdCache := map[], map[];
    }

    /** GetTd: the cache only saves the lookup. */
    method GetTd(hash: Hash) returns (td: Option<int>)
      requires Caches(tdCache, tds)
      modifies this`tdCache
      ensures Caches(tdCache, tds)
      ensures td == if hash in tds then Some(tds[hash]) else None
    {
      if hash in tdCache {
        return Some(tdCache[hash]);
      }
      if hash !in tds {
        return None;
      }
      tdCache := CacheAdd(tdCache, hash, tds[hash]);
      td := Some(tds[hash]);
    }

    method GetHeader(hash: Hash) returns (header: Option<Header>)
      requires Caches(headerCache, headers)
      modifies this`headerCache
      ensures Caches(headerCache, headers)
      ensures header == if hash in headers then Some(headers[hash]) else None
    {
      if hash in headerCache {
        return Some(headerCache[hash]);
      }
      if hash !in headers {
        return None;
      }
      headerCache := CacheAdd(headerCache, hash, headers[hash]);
      header := Some(headers[hash]);
    }

    /** Deletes the canonical numbers from i up to the first gap. */
    method DeleteAbove(i: nat, ghost q: seq<Hash>)
      requires canon == IndexOf(q)
      modifies this`canon
      ensures forall n: nat :: n in canon <==> n < i && n < |q|
      ensures forall n | n in canon :: canon[n] == q[n]
    {
      var k := i;
      while k in canon
        invariant i <= k
        invariant forall n: nat :: n in canon <==> n < |q| && !(i <= n < k)
        invariant forall n | n in canon :: canon[n] == q[n]
        decreases |q| - k
      {
        canon := canon - {k};
        k := k + 1;
      }
    }

    /** Points the index at the path of the parent of header, down to where it already agrees. */
    method Reroute(header: Header, ghost q: seq<Hash>)
      requires Linked(headers, genesis) && head in headers && Caches(headerCache, headers)
      requires header.parent in headers && header.number == headers[header.parent].number + 1
      requires q == Path(headers, genesis, head)
      requires forall n: nat :: n in canon <==> n <= header.number && n < |q|
      requires forall n | n in canon :: canon[n] == q[n]
      modifies this`canon, this`headerCache
      ensures Caches(headerCache, headers)
      ensures canon == IndexOf(Path(headers, genesis, header.parent) + [header.hash])
    {
      var hash, number := header.parent, header.number - 1;
      var at := GetHeader(hash);
      while !(number in canon && canon[number] == hash)
        invariant Walking(headers, genesis, header.parent, head, canon, hash, number, header.number)
        invariant at == Some(headers[hash]) && Caches(headerCache, headers)
        decreases number
      {
        hash, number, at := StepDown(header, hash, number, at.value);
      }
      WalkDone(headers, genesis, header.parent, head, canon, hash, number, header);
      canon := canon[header.number := header.hash];
    }

    method StepDown(header: Header, hash: Hash, number: nat, at: Header)
        returns (hash': Hash, number': int, at': Option<Header>)
      requires Linked(headers, genesis) && head in headers && Caches(headerCache, headers)
      requires header.parent in headers && header.number == headers[header.parent].number + 1
      requires Walking(headers, genesis, header.parent, head, canon, hash, number, header.number) && at == headers[hash]
      requires !(number in canon && canon[number] == hash)
      modifies this`canon, this`headerCache
      ensures Walking(headers, genesis, header.parent, head, canon, hash', number', header.number) && number' < number
      ensures at' == Some(headers[hash']) && Caches(headerCache, headers)
    {
      WalkReroute(headers, genesis, header.parent, head, canon, hash, number, header.number);
      hash', number' := at.parent, at.number - 1;
      at' := GetHeader(hash');
      canon := canon[number := hash];
    }

    /** The stored header becomes the head and the index follows its path. */
    method MakeHead(header: Header)
      requires Linked(headers, genesis) && head in headers && Caches(headerCache, headers)
      requires header.hash in headers && headers[header.hash] == header && header.hash != genesis
      requires canon == IndexOf(Path(headers, genesis, head))
      modifies this`canon, this`headerCache, this`head
      ensures Caches(headerCache, headers)
      ensures head == header.hash && canon == IndexOf(Path(headers, genesis, header.hash))
    {
      ghost var q := Path(headers, genesis, head);
      assert HeaderOk(headers, genesis, header.hash);
      DeleteAbove(header.number + 1, q);
      Reroute(header, q);
      head := header.hash;
    }

    /** Writes the header and its total difficulty, whether or not it becomes canonical. */
    method Store(header: Header, td: int)
      requires Caches(tdCache, tds) && Caches(headerCache, headers)
      requires header.hash in tds ==> tds[header.hash] == td
      requires header.hash in headers ==> headers[header.hash] == header
      modifies this`headers, this`tds, this`tdCache
      ensures headers == old(headers)[header.hash := header] && tds == old(tds)[header.hash := td]
      ensures Caches(tdCache, tds) && Caches(headerCache, headers)
    {
      tds := tds[header.hash := td];
      tdCache := CacheAdd(tdCache, header.hash, td);
      headers := headers[header.hash := header];
    }

    /** Deletes the headers of the head's path above number target and returns where it stops. */
    method ForgetAbove(target: nat, ghost p: seq<Hash>) returns (current: Header)
      requires Good(V(), genesis) && Caches(headerCache, headers) && p == Path(headers, genesis, head)
      modifies this`headers, this`tds
      ensures current.number == (if target < |p| then target else |p| - 1) && current.hash == p[current.number]
      ensures headers == Rewound(old(headers), p, current.number)
      ensures tds == Rewound(old(tds), p, current.number)
    {
      ghost var hs := headers;
      IsOwnAncestor(hs, genesis, head);
      current := headers[head];
      assert headers == Rewound(hs, p, |p| - 1) && tds == Rewound(old(tds), p, |p| - 1);
      while current.number > target
        invariant IsAncestor(hs, genesis, head, current)
        invariant current.number == |p| - 1 || current.number >= target
        invariant headers == Rewound(hs, p, current.number)
        invariant tds == Rewound(old(tds), p, current.number)
        decreases current.number
      {
        RewindStep(hs, p, current.number);
        RewindStep(old(tds), p, current.number);
        ParentIsAncestor(hs, genesis, head, current);
        ParentKept(hs, genesis, head, current);
        headers := headers - {current.hash};
        tds := tds - {current.hash};
        current := if current.parent in headerCache then headerCache[current.parent] else headers[current.parent];
      }
    }

    /** Deletes the canonical numbers from height down to above target. */
    method CutIndex(height: nat, target: nat, ghost p: seq<Hash>)
      requires |p| == height + 1 && canon == IndexOf(p)
      modifies this`canon
      ensures canon == IndexOf(if target < height then p[..target + 1] else p)
    {
      var i := height;
      assert p == p[..i + 1];
      while i > target
        invariant i <= height && (i == height || i >= target)
        invariant canon == IndexOf(p[..i + 1])
      {
        assert IndexOf(p[..i]) == IndexOf(p[..i + 1]) - {i};
        canon := canon - {i};
        i := i - 1;
      }
    }

    /**
      SetHead: the head moves down its path p to number target, if that is below it, the
      index becomes the path of the new head, and exactly the headers of p above it are
      forgotten. The chain is in order then if and only if no side branch that remains begins
      above the new head, or has a higher total difficulty.
     */
    method SetHead(target: nat)
      requires Valid()
      modifies this
      ensures var p := old(Path(headers, genesis, head));
              var n := if target < |p| then target else |p| - 1;
              && head == p[n] && canon == IndexOf(p[..n + 1])
              && headers == Rewound(old(headers), p, n)
              && tds == Rewound(old(tds), p, n)
              && p[n] in old(headers) && (Valid() <==> Undamaged(old(V()), genesis, p, n))
      ensures headerCache == map[] && tdCache == map[]
    {
      ghost var p := Path(headers, genesis, head);
      ghost var n := if target < |p| then target else |p| - 1;
      RewoundIff(V(), genesis, p, n);
      Rewind(target, p, n);
    }

    method Rewind(target: nat, ghost p: seq<Hash>, ghost n: nat)
      requires Valid() && p == Path(headers, genesis, head) && n == if target < |p| then target else |p| - 1
      modifies this
      ensures head == p[n] && canon == IndexOf(p[..n + 1])
      ensures headers == Rewound(old(headers), p, n) && tds == Rewound(old(tds), p, n)
      ensures headerCache == map[] && tdCache == map[]
    {
      var height := headers[head].number;
      var current := ForgetAbove(target, p);
      CutIndex(height, target, p);
      assert p[..|p|] == p;
      headerCache, tdCache := map[], map[];
      head := current.hash;
    }

    /** Stores the header, and makes it the head if it is better than the old one. */
    method Commit(header: Header, td: int, better: bool)
      requires Valid() && CanAdd(headers, genesis, header) && td == header.difficulty + tds[header.parent]
      modifies this
      ensures headers == old(headers)[header.hash := header] && tds == old(tds)[header.hash := td]
      ensures head == if better then header.hash else old(head)
      ensures Linked(headers, genesis) && head in headers && canon == IndexOf(Path(headers, genesis, head))
      ensures Caches(headerCache, headers) && Caches(tdCache, tds)
    {
      Stored(V(), genesis, header);
      Store(header, td);
      if better {
        MakeHead(header);
      }
      headerCache := CacheAdd(headerCache, header.hash, header);
    }

    /** WriteHeader: an unknown parent is an error and changes nothing. */
    method WriteHeader(header: Header, coin: bool) returns (status: Status, unknownAncestor: bool)
      requires Valid() && WellNumbered(V(), genesis, header)
      modifies this
      ensures Valid()
      ensures V() == old(Insert(V(), header, coin))
      ensures unknownAncestor <==> header.parent !in old(headers)
      ensures status == if unknownAncestor then NonStatTy
                        else if old(Better(V(), header.difficulty + tds[header.parent], coin)) then CanonStatTy
                        else SideStatTy
    {
      var ptd := GetTd(header.parent);
      if ptd.None? {
        return NonStatTy, true;
      }
      var localTd := GetTd(head);
      var externTd := header.difficulty + ptd.value;
      InsertKeepsGood(V(), genesis, header, coin);
      var better := externTd > localTd.value || (externTd == localTd.value && coin);
      Commit(header, externTd, better);
      status := if better then CanonStatTy else SideStatTy;
      unknownAncestor := false;
    }

    /**
      InsertHeaderChain: known headers are skipped, the others written, up to the first whose parent is unknown. For
      headers that have passed the linkage check this can only be the first one.
     */
    method InsertHeaderChain(chain: seq<Header>, coins: seq<bool>) returns (ok: bool, ghost upto: nat)
      requires Valid() && Genuine(headers, genesis, chain) && Numbered(headers, chain) && |coins| == |chain|
      modifies this
      ensures Valid() && Extends(old(headers), headers) && upto <= |chain| && (ok <==> upto == |chain|)
      ensures OnlyFrom(old(headers), headers, chain[..upto]) && forall i | 0 <= i < upto :: IsStored(headers, chain[i])
      ensures !ok ==> chain[upto].parent !in headers && chain[upto].hash !in headers
      ensures upto == 0 ==> V() == old(V())
      ensures Contiguous(chain) && !ok ==> upto == 0
    {
      upto := 0;
      for i := 0 to |chain|
        invariant Valid() && HasTaken(old(headers), headers, chain, i) && upto == i
        invariant i == 0 ==> V() == old(V())
      {
        NextOfChain(old(headers), headers, genesis, chain, i);
        if chain[i].hash !in headers {
          ghost var before := headers;
          var status, unknownAncestor := WriteHeader(chain[i], coins[i]);
          if unknownAncestor {
            return false, i;
          }
          ChainStored(old(headers), before, headers, chain, i);
        } else {
          SkippedStored(old(headers), headers, chain, i);
        }
        upto := i + 1;
      }
      assert chain[..|chain|] == chain;
      ok := true;
    }
  }

  predicate IsStored(hs: Headers, header: Header) {
    header.hash in hs && hs[header.hash] == header
  }

  predicate Follows(chain: seq<Header>, i: nat)
    requires 0 < i < |chain|
  {
    chain[i].number == chain[i - 1].number + 1 && chain[i].parent == chain[i - 1].hash
  }

  /** Each header is the child of the one before. */
  predicate Contiguous(chain: seq<Header>) {
    forall i | 0 < i < |chain| :: Follows(chain, i)
  }

  /** A hash belongs to one header, in the store and in the chain, and no new one has the hash of genesis. */
  ghost predicate Genuine(hs: Headers, genesis: Hash, chain: seq<Header>) {
    && (forall i | 0 <= i < |chain| ::
          chain[i].hash != NO_HASH && chain[i].hash != genesis
            && (chain[i].hash in hs ==> hs[chain[i].hash] == chain[i]))
    && (forall i, j | 0 <= i < |chain| && 0 <= j < |chain| && chain[i].hash == chain[j].hash :: chain[i] == chain[j])
  }

  /** Headers are numbered one above their parents, where these are known or in the chain. */
  ghost predicate Numbered(hs: Headers, chain: seq<Header>) {
    && (forall i | 0 <= i < |chain| && chain[i].parent in hs :: chain[i].number == hs[chain[i].parent].number + 1)
    && (forall i, j | 0 <= i < |chain| && 0 <= j < |chain| && chain[i].parent == chain[j].hash ::
        chain[i].number == chain[j].number + 1)
  }

  /** New headers come from the chain. */
  ghost predicate OnlyFrom(hs: Headers, more: Headers, chain: seq<Header>) {
    forall h | h in more && h !in hs :: more[h] in chain
  }

  /** The first headers of the chain are stored, and no others have been added. */
  ghost predicate HasTaken(hs: Headers, more: Headers, chain: seq<Header>, i: nat)
    requires i <= |chain|
  {
    && Extends(hs, more) && OnlyFrom(hs, more, chain[..i])
    && forall k | 0 <= k < i :: IsStored(more, chain[k])
  }

  /** ValidateHeaderChain: the check that the headers are ordered and linked. */
  method ValidateHeaderChain(chain: seq<Header>) returns (ok: bool)
    ensures ok <==> Contiguous(chain)
  {
    var i := 1;
    while i < |chain|
      invariant 1 <= i && forall k | 0 < k < i && k < |chain| :: Follows(chain, k)
    {
      if chain[i].number != chain[i - 1].number + 1 || chain[i].parent != chain[i - 1].hash {
        assert !Follows(chain, i);
        return false;
      }
      i := i + 1;
    }
    ok := true;
  }

  /**
    The next header of the chain may be written if its parent is stored; in a linked chain this is so after the first.
   */
  lemma NextOfChain(hs: Headers, more: Headers, genesis: Hash, chain: seq<Header>, i: nat)
    requires Linked(more, genesis) && Genuine(hs, genesis, chain) && Numbered(hs, chain) && i < |chain|
    requires HasTaken(hs, more, chain, i)
    ensures chain[i].parent in more ==> CanAdd(more, genesis, chain[i])
    ensures Contiguous(chain) && i > 0 ==> chain[i].parent in more
    ensures chain[i].hash in more ==> more[chain[i].hash] == chain[i]
  {
    var header := chain[i];
    if header.hash in more {
      assert HeaderOk(more, genesis, header.hash);
      if header.hash !in hs {
        var k :| 0 <= k < i && chain[..i][k] == more[header.hash];
        assert chain[k].hash == header.hash;
      }
    }
    if header.parent in more {
      assert HeaderOk(more, genesis, header.parent);
      if header.parent !in hs {
        var k :| 0 <= k < i && chain[..i][k] == more[header.parent];
        assert chain[k].hash == header.parent;
      }
    }
    if Contiguous(chain) && i > 0 {
      assert Follows(chain, i) && IsStored(more, chain[i - 1]);
    }
  }

  lemma ChainStored(hs: Headers, before: Headers, more: Headers, chain: seq<Header>, i: nat)
    requires i < |chain| && more == before[chain[i].hash := chain[i]] && chain[i].hash !in before
    requires HasTaken(hs, before, chain, i)
    ensures HasTaken(hs, more, chain, i + 1)
  {
    assert chain[..i + 1] == chain[..i] + [chain[i]];
    forall k | 0 <= k < i + 1
      ensures IsStored(more, chain[k])
    {
      assert k < i ==> IsStored(before, chain[k]);
    }
  }

  lemma SkippedStored(hs: Headers, more: Headers, chain: seq<Header>, i: nat)
    requires i < |chain| && HasTaken(hs, more, chain, i) && IsStored(more, chain[i])
    ensures HasTaken(hs, more, chain, i + 1)
  {
    assert chain[..i + 1] == chain[..i] + [chain[i]];
  }

  /** The store without the headers of a path above number target. */
  function Rewound<V>(store: map<Hash, V>, p: seq<Hash>, target: nat): map<Hash, V> {
    map h | h in store && !(exists n | target < n < |p| :: p[n] == h) :: store[h]
  }

  lemma {:induction false} RewindStep<V>(store: map<Hash, V>, p: seq<Hash>, n: nat)
    requires 0 < n < |p|
    ensures Rewound(store, p, n - 1) == Rewound(store, p, n) - {p[n]}
  {
    var a, b := Rewound(store, p, n - 1), Rewound(store, p, n) - {p[n]};
    forall h | h in b
      ensures h in a
    {
      assert forall k | n - 1 < k < |p| :: p[k] != h;
    }
  }

  /** Deleting a header of the path does not delete its parent. */
  lemma {:induction false} ParentKept(hs: Headers, genesis: Hash, h: Hash, a: Header)
    requires Linked(hs, genesis) && h in hs && IsAncestor(hs, genesis, h, a) && a.number > 0
    ensures a.parent in Rewound(hs, Path(hs, genesis, h), a.number - 1)
  {
    ParentIsAncestor(hs, genesis, h, a);
    var p := Path(hs, genesis, h);
    forall n | a.number - 1 < n < |p|
      ensures p[n] != a.parent
    {
      PathPrefix(hs, genesis, h, n);
    }
  }

  /** The header is not on the path p above number n. */
  ghost predicate Remains(p: seq<Hash>, n: nat, h: Hash) {
    forall k | n < k < |p| :: p[k] != h
  }

  /** What remains when the headers of p above number n go has its parents. */
  ghost predicate ParentsRemain(hs: Headers, p: seq<Hash>, n: nat) {
    forall h {:trigger Remains(p, n, h)} | h in hs && Remains(p, n, h) :: Remains(p, n, hs[h].parent)
  }

  /** The header is above number n on the chain p or on a branch that leaves it there. */
  ghost predicate Descends(hs: Headers, genesis: Hash, p: seq<Hash>, n: nat, h: Hash)
    requires Linked(hs, genesis) && h in hs
  {
    n + 1 < |p| && n < hs[h].number && Path(hs, genesis, h)[n + 1] == p[n + 1]
  }

  /** No side branch leaves the chain p above number n, and what remains is not higher than the header there. */
  ghost predicate Undamaged(v: View, genesis: Hash, p: seq<Hash>, n: nat)
    requires Good(v, genesis) && n < |p| && p[n] in v.headers
  {
    && (forall h {:trigger Descends(v.headers, genesis, p, n, h)} | h in v.headers && h !in p ::
          !Descends(v.headers, genesis, p, n, h))
    && (forall h {:trigger v.tds[h]} | h in v.headers && h !in p[n + 1..] :: v.tds[h] <= v.tds[p[n]])
  }

  lemma InPart(p: seq<Hash>, n: nat, h: Hash)
    requires n < |p|
    ensures Remains(p, n, h) <==> h !in p[n + 1..]
  {
    if h in p[n + 1..] {
      var k :| 0 <= k < |p| - n - 1 && p[n + 1..][k] == h;
      assert p[n + 1 + k] == h;
    }
    forall k | n < k < |p|
      ensures p[k] in p[n + 1..]
    {
      assert p[n + 1..][k - n - 1] == p[k];
    }
  }

  /** A header whose parent goes is on a side branch that leaves the path above number n. */
  lemma {:induction false} OrphanDescends(hs: Headers, genesis: Hash, head: Hash, n: nat, h: Hash)
    requires Linked(hs, genesis) && head in hs && h in hs
    requires var p := Path(hs, genesis, head); Remains(p, n, h) && !Remains(p, n, hs[h].parent)
    ensures h !in Path(hs, genesis, head) && Descends(hs, genesis, Path(hs, genesis, head), n, h)
  {
    var p := Path(hs, genesis, head);
    var k :| n < k < |p| && p[k] == hs[h].parent;
    PathPrefix(hs, genesis, head, k);
    assert HeaderOk(hs, genesis, h);
    if h in p {
      var j :| 0 <= j < |p| && p[j] == h;
      PathPrefix(hs, genesis, head, j);
    }
  }

  /** Where no header loses its parent, no branch leaves the path above number n. */
  lemma {:induction false} DescendantIsOnPath(hs: Headers, genesis: Hash, head: Hash, n: nat, h: Hash)
    requires Linked(hs, genesis) && head in hs && h in hs && ParentsRemain(hs, Path(hs, genesis, head), n)
    requires Descends(hs, genesis, Path(hs, genesis, head), n, h)
    ensures h in Path(hs, genesis, head)
    decreases hs[h].number
  {
    var p := Path(hs, genesis, head);
    if hs[h].number > n + 1 {
      assert HeaderOk(hs, genesis, h);
      var parent := hs[h].parent;
      DescendantIsOnPath(hs, genesis, head, n, parent);
      var j :| 0 <= j < |p| && p[j] == parent;
      PathPrefix(hs, genesis, head, j);
      assert !Remains(p, n, parent);
      assert !Remains(p, n, h);
    }
  }

  lemma {:induction false} UndamagedMeans(v: View, genesis: Hash, n: nat)
    requires Good(v, genesis)
    requires var p := Path(v.headers, genesis, v.head); n < |p| && p[n] in v.headers
    ensures var p := Path(v.headers, genesis, v.head);
            Undamaged(v, genesis, p, n) <==>
            ParentsRemain(v.headers, p, n) && forall h {:trigger v.tds[h]} | h in v.headers && Remains(p, n, h) ::
              v.tds[h] <= v.tds[p[n]]
  {
    var hs, p := v.headers, Path(v.headers, genesis, v.head);
    forall h
      ensures Remains(p, n, h) <==> h !in p[n + 1..]
    {
      InPart(p, n, h);
    }
    if ParentsRemain(hs, p, n) {
      forall h | h in hs && Descends(hs, genesis, p, n, h)
        ensures h in p
      {
        DescendantIsOnPath(hs, genesis, v.head, n, h);
      }
    } else {
      var h :| h in hs && Remains(p, n, h) && !Remains(p, n, hs[h].parent);
      OrphanDescends(hs, genesis, v.head, n, h);
    }
  }

  lemma RewoundKeys<V>(store: map<Hash, V>, p: seq<Hash>, n: nat, h: Hash)
    ensures h in Rewound(store, p, n) <==> h in store && Remains(p, n, h)
  {
  }

  lemma {:induction false} PathRemains(hs: Headers, genesis: Hash, h: Hash, n: nat, k: nat)
    requires Linked(hs, genesis) && h in hs && k <= n <= hs[h].number
    ensures Remains(Path(hs, genesis, h), n, Path(hs, genesis, h)[k])
  {
    var p := Path(hs, genesis, h);
    PathPrefix(hs, genesis, h, k);
    forall j | n < j < |p|
      ensures p[j] != p[k]
    {
      PathPrefix(hs, genesis, h, j);
    }
  }

  /** Rewinding keeps the chain in order exactly if it leaves nothing damaged. */
  lemma {:induction false} RewoundIff(v: View, genesis: Hash, p: seq<Hash>, n: nat)
    requires Good(v, genesis) && p == Path(v.headers, genesis, v.head) && n < |p|
    ensures p[n] in v.headers
    ensures var w := View(Rewound(v.headers, p, n), Rewound(v.tds, p, n), p[n]);
            && (Good(w, genesis) <==> Undamaged(v, genesis, p, n))
            && (Good(w, genesis) ==> Path(w.headers, genesis, p[n]) == p[..n + 1])
  {
    var w := View(Rewound(v.headers, p, n), Rewound(v.tds, p, n), p[n]);
    PathPrefix(v.headers, genesis, v.head, n);
    PathRemains(v.headers, genesis, v.head, n, n);
    PathRemains(v.headers, genesis, v.head, n, 0);
    PathStart(v.headers, genesis, v.head);
    UndamagedMeans(v, genesis, n);
    if Undamaged(v, genesis, p, n) {
      UndamagedIsGood(v, genesis, p, n);
    }
    if Good(w, genesis) {
      forall k | n < k < |p|
        ensures p[k] != NO_HASH
      {
        PathPrefix(v.headers, genesis, v.head, k);
      }
      GoodIsUndamaged(v, genesis, p, n);
      PathStable(w.headers, v.headers, genesis, p[n]);
    }
  }

  lemma UndamagedIsGood(v: View, genesis: Hash, p: seq<Hash>, n: nat)
    requires Good(v, genesis) && n < |p| && p[n] in v.headers && Remains(p, n, p[n]) && Remains(p, n, genesis)
    requires ParentsRemain(v.headers, p, n)
    requires forall h {:trigger v.tds[h]} | h in v.headers && Remains(p, n, h) :: v.tds[h] <= v.tds[p[n]]
    ensures Good(View(Rewound(v.headers, p, n), Rewound(v.tds, p, n), p[n]), genesis)
  {
    var w := View(Rewound(v.headers, p, n), Rewound(v.tds, p, n), p[n]);
    assert w.tds.Keys == w.headers.Keys;
    forall h | h in w.headers
      ensures HeaderOk(w.headers, genesis, h) && TdOk(w, genesis, h)
    {
      RewoundKeys(v.headers, p, n, h);
      assert HeaderOk(v.headers, genesis, h) && TdOk(v, genesis, h);
      RewoundKeys(v.headers, p, n, v.headers[h].parent);
    }
  }

  lemma GoodIsUndamaged(v: View, genesis: Hash, p: seq<Hash>, n: nat)
    requires Good(v, genesis) && n < |p| && p[n] in v.headers && Remains(p, n, p[n])
    requires Remains(p, n, NO_HASH)
    requires Good(View(Rewound(v.headers, p, n), Rewound(v.tds, p, n), p[n]), genesis)
    ensures ParentsRemain(v.headers, p, n)
    ensures forall h {:trigger v.tds[h]} | h in v.headers && Remains(p, n, h) :: v.tds[h] <= v.tds[p[n]]
  {
    var w := View(Rewound(v.headers, p, n), Rewound(v.tds, p, n), p[n]);
    forall h | h in v.headers && Remains(p, n, h)
      ensures Remains(p, n, v.headers[h].parent) && v.tds[h] <= v.tds[p[n]]
    {
      RewoundKeys(v.headers, p, n, h);
      assert HeaderOk(w.headers, genesis, h) && TdOk(w, genesis, h);
      RewoundKeys(v.headers, p, n, v.headers[h].parent);
    }
  }

  /** Storing a header leaves the path of the old head as it is, and overwrites no total difficulty. */
  lemma Stored(v: View, genesis: Hash, header: Header)
    requires Good(v, genesis) && header.parent in v.headers && CanAdd(v.headers, genesis, header)
    ensures var more := v.headers[header.hash := header];
            Linked(more, genesis) && Path(more, genesis, v.head) == Path(v.headers, genesis, v.head)
    ensures header.hash in v.tds ==> v.tds[header.hash] == v.tds[header.parent] + header.difficulty
  {
    AddKeepsLinked(v.headers, genesis, header);
    PathStable(v.headers, v.headers[header.hash := header], genesis, v.head);
    if header.hash in v.headers {
      assert TdOk(v, genesis, header.hash);
    }
  }

  /** Rewinding to genesis leaves a side branch with a higher total difficulty than the head. */
  method LowerHead() returns (chain: HeaderChain)
    ensures chain.head == 1 && 3 in chain.headers && 3 in chain.tds && 1 in chain.tds && chain.tds[3] > chain.tds[1]
    ensures !chain.Valid()
  {
    chain := new HeaderChain(Header(1, NO_HASH, 0, 1), 1);
    var status, unknown := chain.WriteHeader(Header(2, 1, 1, 10), true);
    status, unknown := chain.WriteHeader(Header(3, 1, 1, 5), true);
    chain.SetHead(0);
  }
}
