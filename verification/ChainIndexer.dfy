/**
  ChainIndexer of core/chain_indexer.go: blocks are indexed in sections of equal size. The
  update loop drops its lock while it reads the blocks of a section, so that new heads and
  reorgs, and changes of the chain itself, come in between; afterwards it checks whether the
  section may still be stored.
 */
module ChainIndexer {
  import opened Options
  import opened ChainTree

  const U64: nat := 0x1_0000_0000_0000_0000

  /** The chain database: the canonical number index, and headers by hash. */
  datatype ChainDb = ChainDb(canon: map<nat, Hash>, headers: Headers)

  predicate StoredByHash(db: ChainDb) {
    NO_HASH !in db.headers && forall h | h in db.headers :: db.headers[h].hash == h
  }

  type Db = db: ChainDb | StoredByHash(db) witness ChainDb(map[], map[])

  /** Block numbers are 64-bit. */
  type Number = n: nat | n < U64

  /** What happens while the lock is not held. */
  datatype Event = NewHead(head: Number, reorg: bool) | ChainChanged(db: Db)

  // ---------- Sections ----------

  /** Headers numbered from start on, each the parent of the next, the first a child of prev. */
  predicate Unbroken(prev: Hash, blocks: seq<Header>, start: nat) {
    forall i | 0 <= i < |blocks| :: Follows(prev, blocks, start, i)
  }

  predicate Follows(prev: Hash, blocks: seq<Header>, start: nat, i: nat)
    requires i < |blocks|
  {
    blocks[i].number == start + i && blocks[i].parent == LastHash(prev, blocks[..i]) && blocks[i].hash != NO_HASH
  }

  function LastHash(prev: Hash, blocks: seq<Header>): Hash {
    if blocks == [] then prev else blocks[|blocks| - 1].hash
  }

  lemma UnbrokenOneMore(prev: Hash, blocks: seq<Header>, start: nat, header: Header)
    requires Unbroken(prev, blocks, start)
    requires header.number == start + |blocks| && header.parent == LastHash(prev, blocks) && header.hash != NO_HASH
    ensures Unbroken(prev, blocks + [header], start)
  {
    assert Follows(LastHash(prev, blocks), [header], start + |blocks|, 0);
    UnbrokenConcat(prev, blocks, [header], start);
  }

  /** Two chains, the second starting where the first ends, are one. */
  lemma UnbrokenConcat(prev: Hash, a: seq<Header>, b: seq<Header>, start: nat)
    requires Unbroken(prev, a, start) && Unbroken(LastHash(prev, a), b, start + |a|)
    ensures Unbroken(prev, a + b, start) && LastHash(prev, a + b) == LastHash(LastHash(prev, a), b)
  {
    var c := a + b;
    forall i | 0 <= i < |c|
      ensures Follows(prev, c, start, i)
    {
      if i < |a| {
        assert Follows(prev, a, start, i);
        assert c[..i] == a[..i];
      } else {
        assert Follows(LastHash(prev, a), b, start + |a|, i - |a|);
        assert c[..i] == a + b[..i - |a|];
      }
    }
  }

  /** The number of the first block of a section. */
  function Start(section: nat, size: nat): nat {
    if section == 0 then 0 else Start(section - 1, size) + size
  }

  lemma {:induction false} StartIsProduct(section: nat, size: nat)
    ensures Start(section, size) == section * size
  {
    if section > 0 {
      StartIsProduct(section - 1, size);
    }
  }

  lemma {:induction false} StartGrows(a: nat, b: nat, size: nat)
    requires a <= b && size > 0
    ensures Start(a, size) + (b - a) <= Start(b, size)
    decreases b
  {
    if a < b {
      StartGrows(a, b - 1, size);
    }
  }

  /** A block is in the section that its number divided by the size says. */
  lemma WithinSection(n: nat, size: nat)
    requires size > 0
    ensures Start(n / size, size) <= n < Start(n / size + 1, size)
  {
    StartIsProduct(n / size, size);
  }

  type Heads = map<nat, Hash>
  type Backend = map<nat, seq<Header>>

  /** The section head table; a missing entry reads as the empty hash. */
  function SectionHead(shead: Heads, section: nat): Hash {
    if section in shead then shead[section] else NO_HASH
  }

  /** The head before a section; the key wraps around at section 0. */
  function HeadBefore(shead: Heads, section: nat): Hash {
    SectionHead(shead, if section == 0 then U64 - 1 else section - 1)
  }

  /** The backend has a whole section that continues the one before and ends in its head. */
  ghost predicate SectionOk(shead: Heads, backend: Backend, size: nat, i: nat) {
    && i in shead && i in backend && |backend[i]| == size
    && Unbroken(HeadBefore(shead, i), backend[i], Start(i, size))
    && shead[i] == LastHash(HeadBefore(shead, i), backend[i])
  }

  /** Heads are stored exactly for the sections below count, and all of these are in order. */
  ghost predicate Sealed(count: nat, shead: Heads, backend: Backend, size: nat) {
    && count < U64 && size > 0
    && (forall i: nat :: i in shead <==> i < count)
    && (forall i: nat {:trigger SectionOk(shead, backend, size, i)} | i < count :: SectionOk(shead, backend, size, i))
  }

  lemma HeadBeforeIs(shead: Heads, count: nat, section: nat)
    requires count < U64 && section < U64 && (forall i: nat :: i in shead <==> i < count)
    ensures HeadBefore(shead, section) == if 0 < section <= count then shead[section - 1] else NO_HASH
  {
  }

  lemma HeadNotEmpty(count: nat, shead: Heads, backend: Backend, size: nat, i: nat)
    requires Sealed(count, shead, backend, size) && i < count
    ensures shead[i] != NO_HASH
  {
    assert SectionOk(shead, backend, size, i);
    assert Follows(HeadBefore(shead, i), backend[i], Start(i, size), size - 1);
  }

  /** All headers of the first n sections. */
  ghost function Indexed(backend: Backend, n: nat): seq<Header>
  {
    if n == 0 then [] else Indexed(backend, n - 1) + (if n - 1 in backend then backend[n - 1] else [])
  }

  /** The stored sections are one unbroken chain of parent hashes from block 0. */
  lemma {:induction false} SectionsAreOneChain(count: nat, shead: Heads, backend: Backend, size: nat, n: nat)
    requires Sealed(count, shead, backend, size) && n <= count
    ensures |Indexed(backend, n)| == Start(n, size) && Unbroken(NO_HASH, Indexed(backend, n), 0)
    ensures n > 0 ==> LastHash(NO_HASH, Indexed(backend, n)) == shead[n - 1]
  {
    if n > 0 {
      SectionsAreOneChain(count, shead, backend, size, n - 1);
      assert SectionOk(shead, backend, size, n - 1);
      HeadBeforeIs(shead, count, n - 1);
      assert LastHash(NO_HASH, Indexed(backend, n - 1)) == HeadBefore(shead, n - 1);
      UnbrokenConcat(NO_HASH, Indexed(backend, n - 1), backend[n - 1], 0);
    }
  }

  // ---------- Dropping and adding sections ----------

  function Truncated(shead: Heads, n: nat): Heads {
    map i | i in shead && i < n :: shead[i]
  }

  lemma TruncateKeepsSealed(count: nat, shead: Heads, backend: Backend, size: nat, n: nat)
    requires Sealed(count, shead, backend, size) && n <= count
    ensures Sealed(n, Truncated(shead, n), backend, size)
  {
    var cut := Truncated(shead, n);
    forall i: nat | i < n
      ensures SectionOk(cut, backend, size, i)
    {
      assert SectionOk(shead, backend, size, i);
      HeadBeforeIs(shead, count, i);
      HeadBeforeIs(cut, n, i);
    }
  }

  /** The backend may do what it likes with sections that are not stored. */
  lemma BackendAbove(count: nat, shead: Heads, backend: Backend, size: nat, section: nat, blocks: seq<Header>)
    requires Sealed(count, shead, backend, size) && count <= section
    ensures Sealed(count, shead, backend[section := blocks], size)
  {
    var backend' := backend[section := blocks];
    forall i: nat | i < count
      ensures SectionOk(shead, backend', size, i)
    {
      assert SectionOk(shead, backend, size, i);
    }
  }

  lemma AppendKeepsSealed(count: nat, shead: Heads, backend: Backend, size: nat, hash: Hash)
    requires Sealed(count, shead, backend, size) && count + 1 < U64 && count in backend && |backend[count]| == size
    requires Unbroken(HeadBefore(shead, count), backend[count], Start(count, size))
    requires hash == LastHash(HeadBefore(shead, count), backend[count])
    ensures Sealed(count + 1, shead[count := hash], backend, size)
  {
    var more := shead[count := hash];
    forall i: nat | i < count + 1
      ensures SectionOk(more, backend, size, i)
    {
      HeadBeforeIs(shead, count, i);
      HeadBeforeIs(more, count + 1, i);
      if i < count {
        assert SectionOk(shead, backend, size, i);
      }
    }
  }

  // ---------- Reorgs in a schedule ----------

  predicate Reorgs(e: Event, size: nat, section: nat)
    requires size > 0
  {
    e.NewHead? && e.reorg && e.head / size < section
  }

  /** The lowest section, from a given one down, that the events fall back to. */
  function Lowest(events: seq<Event>, size: nat, from: nat): (n: nat)
    requires size > 0
    ensures n <= from
  {
    if events == [] then from
    else
      var n := Lowest(events[..|events| - 1], size, from);
      var e := events[|events| - 1];
      if Reorgs(e, size, n) then e.head / size else n
  }

  lemma {:induction false} LowestAppend(a: seq<Event>, b: seq<Event>, size: nat, from: nat)
    requires size > 0
    ensures Lowest(a + b, size, from) == Lowest(b, size, Lowest(a, size, from))
  {
    if b == [] {
      assert a + b == a;
    } else {
      var last := |b| - 1;
      assert (a + b)[..|a| + last] == a + b[..last];
      LowestAppend(a, b[..last], size, from);
    }
  }

  /** The chain database after the events. */
  function Latest(events: seq<Event>, db: Db): Db {
    if events == [] then db
    else if events[|events| - 1].ChainChanged? then events[|events| - 1].db
    else Latest(events[..|events| - 1], db)
  }

  lemma {:induction false} LatestAppend(a: seq<Event>, b: seq<Event>, db: Db)
    ensures Latest(a + b, db) == Latest(b, Latest(a, db))
  {
    if b == [] {
      assert a + b == a;
    } else {
      var last := |b| - 1;
      assert (a + b)[..|a| + last] == a + b[..last];
      LatestAppend(a, b[..last], db);
    }
  }

  /** The events leave a section alone exactly if none of them is a reorg to below it. */
  lemma {:induction false} LowestStays(events: seq<Event>, size: nat, from: nat)
    requires size > 0
    ensures Lowest(events, size, from) == from <==> forall i | 0 <= i < |events| :: !Reorgs(events[i], size, from)
  {
    if events != [] {
      var last := |events| - 1;
      LowestStays(events[..last], size, from);
      assert events == events[..last] + [events[last]];
      if forall i | 0 <= i < |events| :: !Reorgs(events[i], size, from) {
        assert forall i | 0 <= i < last :: events[..last][i] == events[i];
      }
    }
  }

  /** The blocks of so many sections have 64-bit numbers. */
  predicate Fits(sections: nat, size: nat) {
    Start(sections, size) < U64
  }

  lemma FewerFit(known: nat, sections: nat, size: nat)
    requires sections <= known && Fits(known, size) && size > 0
    ensures Fits(sections, size) && sections < U64
  {
    StartGrows(sections, known, size);
    StartGrows(0, sections, size);
  }

  lemma SectionsFit(n: nat, size: nat)
    requires n < U64 && size > 0
    ensures Fits(n / size, size)
  {
    WithinSection(n, size);
  }

  /** All blocks of the section are there, with so many more up to the head. */
  ghost predicate IsDeep(section: nat, size: nat, confirms: nat, head: nat) {
    (section + 1) * size + confirms <= head + 1
  }

  lemma DeepIff(section: nat, size: nat, confirms: nat, head: nat)
    requires size > 0 && confirms <= head + 1
    ensures IsDeep(section, size, confirms, head) <==> section < (head + 1 - confirms) / size
  {
    var blocks := head + 1 - confirms;
    if section < blocks / size {
      assert (section + 1) * size <= (blocks / size) * size;
    } else {
      assert (blocks / size + 1) * size <= (section + 1) * size;
    }
  }

  /** A reorg takes known sections away; a head confirms those that are deep enough below it. */
  function KnownAfter(known: nat, size: nat, confirms: nat, head: Number, reorg: bool): nat
    requires size > 0
  {
    if reorg then if head / size < known then head / size else known
    else
      var sections := if head >= confirms then (head + 1 - confirms) % U64 / size else 0;
      if sections > known then sections else known
  }

  /**
    Which sections are known afterwards: with a reorg those that end before its head, else those that were known and
    those that have enough confirmations. No section has, when the number of blocks does not fit a word.
   */
  lemma KnownIff(known: nat, size: nat, confirms: nat, head: Number, reorg: bool, n: nat)
    requires size > 0
    ensures n < KnownAfter(known, size, confirms, head, reorg) <==>
            if reorg then n < known && IsDeep(n, size, 1, head)
            else n < known || (confirms <= head && head + 1 - confirms < U64 && IsDeep(n, size, confirms, head))
  {
    if reorg {
      DeepIff(n, size, 1, head);
    } else if confirms <= head {
      DeepIff(n, size, confirms, head);
    }
  }

  /** The known sections after the events. */
  function KnownOf(events: seq<Event>, size: nat, confirms: nat, known: nat): nat
    requires size > 0
  {
    if events == [] then known
    else
      var before := KnownOf(events[..|events| - 1], size, confirms, known);
      match events[|events| - 1]
      case NewHead(head, reorg) => KnownAfter(before, size, confirms, head, reorg)
      case ChainChanged(_) => before
  }

  /** Everything that happens in a schedule. */
  function Happened(schedule: seq<seq<Event>>): seq<Event> {
    if schedule == [] then [] else Happened(schedule[..|schedule| - 1]) + schedule[|schedule| - 1]
  }

  /** GetCanonicalHash and GetHeader: the header of the canonical block, if both can be found. */
  function CanonicalHeader(db: Db, number: nat): (header: Option<Header>)
    ensures header.Some? ==> header.value.number == number && header.value.hash != NO_HASH
  {
    if number in db.canon && db.canon[number] in db.headers && db.headers[db.canon[number]].number == number
    then Some(db.headers[db.canon[number]])
    else None
  }

  /** What is read for block k of a section: the chain may have changed at every point up to it. */
  function Read(db: Db, schedule: seq<seq<Event>>, start: nat, k: nat): Option<Header>
    requires k < |schedule|
  {
    CanonicalHeader(Latest(Happened(schedule[..k + 1]), db), start + k)
  }

  /** Block k is read, and is a child of the one read before it. */
  predicate ReadsOn(db: Db, schedule: seq<seq<Event>>, start: nat, prev: Hash, k: nat)
    requires k < |schedule|
  {
    && Read(db, schedule, start, k).Some?
    && var parent := Read(db, schedule, start, k).value.parent;
       if k == 0 then parent == prev
       else Read(db, schedule, start, k - 1).Some? && parent == Read(db, schedule, start, k - 1).value.hash
  }

  predicate ReadsAll(db: Db, schedule: seq<seq<Event>>, start: nat, prev: Hash, size: nat)
    requires size < |schedule|
  {
    forall k | 0 <= k < size :: ReadsOn(db, schedule, start, prev, k)
  }

  /** Reading stops after the first block that is not a child of the one before, or at the end. */
  predicate StopsAt(db: Db, schedule: seq<seq<Event>>, start: nat, prev: Hash, size: nat, upto: nat)
    requires size < |schedule|
  {
    && 0 < upto <= size + 1 && ReadsAll(db, schedule, start, prev, upto - 1)
    && (upto <= size ==> !ReadsOn(db, schedule, start, prev, upto - 1))
  }

  /** The headers are those that are read. */
  predicate WereRead(db: Db, schedule: seq<seq<Event>>, start: nat, blocks: seq<Header>)
    requires |blocks| < |schedule|
  {
    forall k | 0 <= k < |blocks| :: Read(db, schedule, start, k) == Some(blocks[k])
  }

  /** Blocks 0 to k of the section have been read, each a child of the one before. */
  predicate IsReading(db: Db, schedule: seq<seq<Event>>, start: nat, prev: Hash, k: nat, blocks: seq<Header>,
                      last: Hash) {
    && |blocks| == k < |schedule| && last == LastHash(prev, blocks)
    && WereRead(db, schedule, start, blocks) && ReadsAll(db, schedule, start, prev, k) && Unbroken(prev, blocks, start)
  }

  /** The next section has been read, and its head has joined the stored ones. */
  predicate IsNextSection(db: Db, schedule: seq<seq<Event>>, size: nat, section: nat, shead: Heads, shead': Heads,
                          backend: Backend) {
    && section in shead' && shead' == shead[section := shead'[section]] && section in backend
    && IsReading(db, schedule, Start(section, size), HeadBefore(shead, section), size, backend[section],
                 shead'[section])
  }

  /** The events so far have been applied to sections, heads and chain. */
  predicate Midway(schedule: seq<seq<Event>>, size: nat, stored0: nat, shead0: Heads, db0: Db, stored: nat,
                   shead: Heads, db: Db) {
    && size > 0
    && stored == Lowest(Happened(schedule), size, stored0) && db == Latest(Happened(schedule), db0)
    && shead == Truncated(shead0, stored)
  }

  /** Reading goes on with block k exactly if the header found is a child of the last one read. */
  lemma ReadStep(db: Db, schedule: seq<seq<Event>>, start: nat, prev: Hash, blocks: seq<Header>, header: Option<Header>)
    requires |blocks| + 1 < |schedule| && header == Read(db, schedule, start, |blocks|)
    requires IsReading(db, schedule, start, prev, |blocks|, blocks, LastHash(prev, blocks))
    ensures if header.None?
            || header.value.parent != LastHash(prev, blocks) then !ReadsOn(db, schedule, start, prev, |blocks|)
            else IsReading(db, schedule, start, prev, |blocks| + 1, blocks + [header.value], header.value.hash)
  {
    if blocks != [] {
      assert Read(db, schedule, start, |blocks| - 1) == Some(blocks[|blocks| - 1]);
    }
    if header.Some? && header.value.parent == LastHash(prev, blocks) {
      UnbrokenOneMore(prev, blocks, start, header.value);
    }
  }

  // ---------- The indexer ----------

  class ChainIndexer {
    const size: nat
    const confirms: nat
    // written by others
    var db: Db
    // the backend's sections and the index database
    var backend: Backend
    var count: nat
    var shead: Heads
    // in memory
    var storedSections: nat
    var knownSections: nat
    var cascadedHead: nat

    ghost predicate Valid()
      reads this
    {
      && count == storedSections
      && Sealed(storedSections, shead, backend, size)
      && Fits(knownSections, size)
    }

    /** NewChainIndexer with loadValidSections: restarts from what is in the databases. */
    constructor (size: nat, confirms: nat, db: Db, count: nat, shead: Heads, backend: Backend)
      requires Sealed(count, shead, backend, size)
      ensures Valid() && this.size == size && this.confirms == confirms && this.db == db
      ensures storedSections == count && this.shead == shead && this.backend == backend
      ensures knownSections == 0 && cascadedHead == 0
    {
      this.size, this.confirms, this.db, this.backend := size, confirms, db, backend;
      this.count, this.shead, storedSections := count, shead, count;
      knownSections, cascadedHead := 0, 0;
    }

    /** setValidSections. */
    method SetValidSections(sections: nat)
      requires forall i: nat | i in shead :: i < storedSections || i < sections
      modifies this`count, this`storedSections, this`shead
      ensures count == storedSections == sections
      ensures shead == Truncated(old(shead), sections)
    {
      count := sections;
      while storedSections > sections
        invariant count == sections
        invariant storedSections == old(storedSections) || sections <= storedSections < old(storedSections)
        invariant shead
                    == (if storedSections < old(storedSections) then Truncated(old(shead), storedSections)
                        else old(shead))
      {
        storedSections := storedSections - 1;
        shead := shead - {storedSections};
      }
      storedSections := sections;
    }

    /** newHead. */
    method NewHead(head: Number, reorg: bool)
      requires Valid()
      modifies this`count, this`storedSections, this`knownSections, this`cascadedHead, this`shead
      ensures Valid()
      ensures storedSections == Lowest([Event.NewHead(head, reorg)], size, old(storedSections))
      ensures shead == Truncated(old(shead), storedSections)
      ensures knownSections == KnownAfter(old(knownSections), size, confirms, head, reorg)
      ensures forall n: nat ::
                n < knownSections <==>
                if reorg then n < old(knownSections) && IsDeep(n, size, 1, head)
                else || n < old(knownSections)
                     || (confirms <= head && head + 1 - confirms < U64 && IsDeep(n, size, confirms, head))
      ensures cascadedHead == if reorg
              && Start(head / size, size) < old(cascadedHead) then Start(head / size, size) else old(cascadedHead)
    {
      forall n: nat {
        KnownIff(knownSections, size, confirms, head, reorg, n);
      }
      if reorg {
        Rollback(head / size);
        return;
      }
      assert shead == Truncated(shead, storedSections);
      if head >= confirms {
        var sections := (head + 1 - confirms) % U64 / size;
        SectionsFit((head + 1 - confirms) % U64, size);
        if sections > knownSections {
          knownSections := sections;
        }
      }
    }

    /** The reorg part of newHead: sections from a given one on are no longer known, nor stored. */
    method Rollback(changed: nat)
      requires Valid()
      modifies this`count, this`storedSections, this`knownSections, this`cascadedHead, this`shead
      ensures Valid()
      ensures storedSections == (if changed < old(storedSections) then changed else old(storedSections))
      ensures shead == Truncated(old(shead), storedSections)
      ensures knownSections == if changed < old(knownSections) then changed else old(knownSections)
      ensures cascadedHead == if Start(changed, size) < old(cascadedHead) then Start(changed, size)
                else old(cascadedHead)
    {
      assert shead == Truncated(shead, storedSections);
      if changed < knownSections {
        FewerFit(knownSections, changed, size);
        knownSections := changed;
      }
      if changed < storedSections {
        TruncateKeepsSealed(storedSections, shead, backend, size, changed);
        SetValidSections(changed);
      }
      if Start(changed, size) < cascadedHead {
        cascadedHead := Start(changed, size);
      }
    }

    /** What others do while the lock is free. */
    method Perform(events: seq<Event>)
      requires Valid()
      modifies this`db, this`count, this`storedSections, this`knownSections, this`cascadedHead, this`shead
      ensures Valid()
      ensures storedSections == Lowest(events, size, old(storedSections)) && db == Latest(events, old(db))
      ensures shead == Truncated(old(shead), storedSections)
      ensures knownSections == KnownOf(events, size, confirms, old(knownSections))
    {
      assert shead == Truncated(shead, storedSections);
      for i := 0 to |events|
        invariant Valid() && db == Latest(events[..i], old(db))
        invariant knownSections == KnownOf(events[..i], size, confirms, old(knownSections))
        invariant storedSections == Lowest(events[..i], size, old(storedSections))
        invariant shead == Truncated(old(shead), storedSections)
      {
        assert events[..i + 1][..i] == events[..i];
        match events[i]
        case NewHead(head, reorg) =>
          NewHead(head, reorg);
        case ChainChanged(changed) =>
          db := changed;
      }
      assert events[..|events|] == events;
    }

    /** The lock is free at point k of the schedule. */
    method Unlocked(schedule: seq<seq<Event>>, k: nat, ghost stored0: nat, ghost shead0: Heads, ghost db0: Db)
      requires Valid() && k < |schedule| && Midway(schedule[..k], size, stored0, shead0, db0, storedSections, shead, db)
      modifies this`db, this`count, this`storedSections, this`knownSections, this`cascadedHead, this`shead
      ensures Valid() && Midway(schedule[..k + 1], size, stored0, shead0, db0, storedSections, shead, db)
    {
      HappenedOneMore(schedule, k, size, stored0, db0);
      Perform(schedule[k]);
    }

    /**
      processSection, with schedule[k] coming in before block k is read, and the last part before it
      returns. It succeeds if and only if every block it reads is a child of the one before, and stops at
      the first that is not.
     */
    method ProcessSection(section: nat, lastHead: Hash, schedule: seq<seq<Event>>, commits: bool)
        returns (newHead: Hash, ok: bool, ghost upto: nat)
      requires Valid() && |schedule| == size + 1 && storedSections == section
      modifies this`db, this`count, this`storedSections, this`knownSections, this`cascadedHead, this`shead, this`backend
      ensures Valid() && storedSections <= section && shead == Truncated(old(shead), storedSections)
      ensures ok <==> commits && ReadsAll(old(db), schedule, Start(section, size), lastHead, size)
      ensures StopsAt(old(db), schedule, Start(section, size), lastHead, size, upto)
      ensures Midway(schedule[..upto], size, section, old(shead), old(db), storedSections, shead, db)
      ensures if ok then section in backend
              && backend == old(backend)[section := backend[section]] else backend == old(backend)
      ensures ok ==> IsReading(old(db), schedule, Start(section, size), lastHead, size, backend[section], newHead)
    {
      newHead, ok, upto := lastHead, false, 0;
      var batch: seq<Header> := [];
      ghost var start, db0, shead0 := Start(section, size), db, shead;
      assert Midway(schedule[..0], size, section, shead, db, storedSections, shead, db);
      for k := 0 to size
        invariant Valid() && backend == old(backend)
        invariant Midway(schedule[..k], size, section, shead0, db0, storedSections, shead, db)
        invariant IsReading(db0, schedule, start, lastHead, k, batch, newHead)
      {
        Unlocked(schedule, k, section, shead0, db0);
        upto := k + 1;
        var header := CanonicalHeader(db, Start(section, size) + k);
        ReadStep(db0, schedule, start, lastHead, batch, header);
        if header.None? || header.value.parent != newHead {
          return;
        }
        batch := batch + [header.value];
        newHead := header.value.hash;
      }
      Unlocked(schedule, size, section, shead0, db0);
      upto := size + 1;
      if commits {
        BackendAbove(storedSections, shead, backend, size, section, batch);
        backend := backend[section := batch];
        ok := true;
      }
    }

    /** A section that continues the stored ones joins them. */
    method StoreSection(section: nat, newHead: Hash)
      requires Valid() && section == storedSections && section + 1 < U64 && Fits(section + 1, size)
      requires section in backend && |backend[section]| == size
      requires Unbroken(HeadBefore(shead, section), backend[section], Start(section, size))
      requires newHead == LastHash(HeadBefore(shead, section), backend[section])
      modifies this`count, this`storedSections, this`cascadedHead, this`shead
      ensures Valid() && storedSections == section + 1 && cascadedHead == Start(section + 1, size) - 1
      ensures shead == old(shead)[section := newHead]
    {
      AppendKeepsSealed(storedSections, shead, backend, size, newHead);
      shead := shead[section := newHead];
      SetValidSections(section + 1);
      assert shead == old(shead)[section := newHead];
      cascadedHead := Start(storedSections, size) - 1;
    }

    /**
      One round of updateLoop. A section is stored if and only if it could be read and no reorg
      to below it came in the meantime. The first upto parts of the schedule have happened.
     */
    method Update(schedule: seq<seq<Event>>, commits: bool) returns (processed: bool, stored: bool, ghost upto: nat)
      requires Valid() && |schedule| == size + 1
      modifies this`db, this`count, this`storedSections, this`knownSections, this`cascadedHead, this`shead, this`backend
      ensures Valid()
      ensures processed <==>
                && old(knownSections) > old(storedSections) && commits
                && ReadsAll(old(db), schedule, Start(old(storedSections), size),
                            HeadBefore(old(shead), old(storedSections)), size)
      ensures stored <==> processed && Lowest(Happened(schedule), size, old(storedSections)) == old(storedSections)
      ensures stored ==> IsNextSection(old(db), schedule, size, old(storedSections), old(shead), shead, backend)
      ensures stored ==> storedSections == old(storedSections) + 1 && cascadedHead == Start(storedSections, size) - 1
      ensures upto <= |schedule| && db == Latest(Happened(schedule[..upto]), old(db)) && (stored ==> upto == size + 1)
      ensures !stored ==> storedSections == Lowest(Happened(schedule[..upto]), size, old(storedSections))
      ensures !stored ==> shead == Truncated(old(shead), storedSections)
      ensures if old(knownSections) > old(storedSections)
              then StopsAt(old(db), schedule, Start(old(storedSections), size),
                           HeadBefore(old(shead), old(storedSections)), size, upto)
              else upto == 0
      ensures !stored ==>
                knownSections == if old(knownSections) > old(storedSections) then storedSections else old(knownSections)
    {
      if knownSections <= storedSections {
        assert shead == Truncated(shead, storedSections);
        return false, false, 0;
      }
      processed, stored, upto := NextSection(schedule, commits);
    }

    /** The section after the stored ones is processed, and stored or given up for now. */
    method NextSection(schedule: seq<seq<Event>>, commits: bool)
        returns (processed: bool, stored: bool, ghost upto: nat)
      requires Valid() && |schedule| == size + 1 && knownSections > storedSections
      modifies this`db, this`count, this`storedSections, this`knownSections, this`cascadedHead, this`shead, this`backend
      ensures Valid()
      ensures processed <==>
                commits
                  && ReadsAll(old(db), schedule, Start(old(storedSections), size),
                              HeadBefore(old(shead), old(storedSections)), size)
      ensures stored <==> processed && Lowest(Happened(schedule), size, old(storedSections)) == old(storedSections)
      ensures stored ==> IsNextSection(old(db), schedule, size, old(storedSections), old(shead), shead, backend)
      ensures stored ==> storedSections == old(storedSections) + 1 && cascadedHead == Start(storedSections, size) - 1
      ensures StopsAt(old(db), schedule, Start(old(storedSections), size), HeadBefore(old(shead), old(storedSections)),
                      size, upto)
      ensures db == Latest(Happened(schedule[..upto]), old(db)) && (processed ==> upto == size + 1)
      ensures !stored ==> storedSections == Lowest(Happened(schedule[..upto]), size, old(storedSections))
      ensures !stored ==> shead == Truncated(old(shead), storedSections) && knownSections == storedSections
    {
      stored := false;
      var section := storedSections;
      var oldHead := NO_HASH;
      if section > 0 {
        oldHead := SectionHead(shead, section - 1);
      }
      assert oldHead == HeadBefore(shead, section);
      FewerFit(knownSections, section + 1, size);
      var newHead;
      newHead, processed, upto := ProcessSection(section, oldHead, schedule, commits);
      assert schedule[..size + 1] == schedule;
      CheckFindsReorg(old(shead), section, shead, storedSections, old(backend), size);
      if processed && oldHead == HeadBefore(shead, section) {
        assert shead == old(shead);
        StoreSection(section, newHead);
        stored := true;
      } else {
        FewerFit(section + 1, storedSections, size);
        knownSections := storedSections;
      }
    }

    /** Any run of the update loop and of events in between keeps the index in order. */
    method Run(steps: seq<Step>)
      requires Valid() && forall i | 0 <= i < |steps| && steps[i].Update? :: |steps[i].schedule| == size + 1
      modifies this`db, this`count, this`storedSections, this`knownSections, this`cascadedHead, this`shead, this`backend
      ensures Valid()
      ensures Unbroken(NO_HASH, Indexed(backend, storedSections), 0)
    {
      for i := 0 to |steps|
        invariant Valid()
      {
        match steps[i]
        case Meanwhile(events) =>
          Perform(events);
        case Update(schedule, commits) =>
          var processed, stored, upto := Update(schedule, commits);
      }
      SectionsAreOneChain(storedSections, shead, backend, size, storedSections);
    }
  }

  datatype Step = Meanwhile(events: seq<Event>) | Update(schedule: seq<seq<Event>>, commits: bool)

  lemma HappenedOneMore(schedule: seq<seq<Event>>, k: nat, size: nat, from: nat, db: Db)
    requires k < |schedule| && size > 0
    ensures Latest(Happened(schedule[..k + 1]), db) == Latest(schedule[k], Latest(Happened(schedule[..k]), db))
    ensures Lowest(Happened(schedule[..k + 1]), size, from)
              == Lowest(schedule[k], size, Lowest(Happened(schedule[..k]), size, from))
  {
    assert schedule[..k + 1][..k] == schedule[..k];
    LowestAppend(Happened(schedule[..k]), schedule[k], size, from);
    LatestAppend(Happened(schedule[..k]), schedule[k], db);
  }

  /** Comparing the head before the section tells whether sections have been dropped since. */
  lemma CheckFindsReorg(shead: Heads, section: nat, shead': Heads, stored: nat, backend: Backend, size: nat)
    requires Sealed(section, shead, backend, size) && stored <= section && shead' == Truncated(shead, stored)
    ensures HeadBefore(shead, section) == HeadBefore(shead', section) <==> stored == section
  {
    HeadBeforeIs(shead, section, section);
    HeadBeforeIs(shead', stored, section);
    if stored < section {
      HeadNotEmpty(section, shead, backend, size, section - 1);
    } else {
      assert shead == shead';
    }
  }
}
