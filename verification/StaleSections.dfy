/**
  When the chain indexer of core/chain_indexer.go stores a section with blocks that are no longer canonical, and
  what happens then. Chain changes that replace canonical blocks are announced to the indexer by the number of the
  last block that stays.
 */
module StaleSections {
  import opened Options
  import opened ChainTree
  import opened ChainIndexer

  // ---------- Announced changes of the chain ----------

  /** The canonical block with this number stays, if there is one. */
  ghost predicate Keeps(before: Db, after: Db, n: nat) {
    CanonicalHeader(before, n).Some? ==> CanonicalHeader(after, n) == CanonicalHeader(before, n)
  }

  /** The canonical blocks up to the head stay; those above it may be replaced, or not. */
  ghost predicate Stays(before: Db, after: Db, head: nat) {
    forall n: nat {:trigger Keeps(before, after, n)} | n <= head :: Keeps(before, after, n)
  }

  /** All canonical blocks stay. */
  ghost predicate Grows(before: Db, after: Db) {
    forall n: nat {:trigger Keeps(before, after, n)} :: Keeps(before, after, n)
  }

  /** The database after the first p events. */
  function DbAt(events: seq<Event>, db: Db, p: nat): Db
    requires p <= |events|
  {
    Latest(events[..p], db)
  }

  lemma DbStep(events: seq<Event>, db: Db, i: nat)
    requires i < |events|
    ensures DbAt(events, db, i + 1) == if events[i].ChainChanged? then events[i].db else DbAt(events, db, i)
  {
    assert events[..i + 1][..i] == events[..i];
  }

  /** Event i leaves the canonical blocks up to the head. */
  ghost predicate ReorgAt(events: seq<Event>, db: Db, i: nat, head: nat) {
    i < |events| && events[i].ChainChanged? && Stays(DbAt(events, db, i), events[i].db, head)
  }

  ghost predicate AnnouncedAt(events: seq<Event>, db: Db, i: nat)
    requires i < |events|
  {
    events[i].ChainChanged? ==>
      || Grows(DbAt(events, db, i), events[i].db)
      || exists head: Number :: ReorgAt(events, db, i, head) && NewHead(head, true) in events
  }

  /**
    Every change of the chain only adds blocks, or is announced to the indexer as a reorg to a block up to which all
    stay.
   */
  ghost predicate Announced(events: seq<Event>, db: Db) {
    forall i {:trigger AnnouncedAt(events, db, i)} | 0 <= i < |events| :: AnnouncedAt(events, db, i)
  }

  /** A block that has been replaced does not become canonical again. */
  ghost predicate NoReturn(events: seq<Event>, db: Db) {
    forall p: nat, q: nat, r: nat, n: nat
      {:trigger CanonicalHeader(DbAt(events, db, p), n), CanonicalHeader(DbAt(events, db, q), n),
       CanonicalHeader(DbAt(events, db, r), n)}
      | p <= q <= r <= |events| && CanonicalHeader(DbAt(events, db, p), n).Some?
        && CanonicalHeader(DbAt(events, db, q), n) != CanonicalHeader(DbAt(events, db, p), n) ::
      CanonicalHeader(DbAt(events, db, r), n) != CanonicalHeader(DbAt(events, db, p), n)
  }

  /** Event i keeps the canonical block with this number. */
  ghost predicate KeepsAt(events: seq<Event>, db: Db, i: nat, n: nat)
    requires i < |events|
  {
    events[i].ChainChanged? ==> Keeps(DbAt(events, db, i), events[i].db, n)
  }

  /** A canonical block that each change keeps stays canonical. */
  lemma {:induction false} KeptStays(events: seq<Event>, db: Db, n: nat, p: nat, q: nat)
    requires p <= q <= |events| && CanonicalHeader(DbAt(events, db, p), n).Some?
    requires forall i {:trigger KeepsAt(events, db, i, n)} | p <= i < q :: KeepsAt(events, db, i, n)
    ensures CanonicalHeader(DbAt(events, db, q), n) == CanonicalHeader(DbAt(events, db, p), n)
    decreases q
  {
    if p < q {
      KeptStays(events, db, n, p, q - 1);
      DbStep(events, db, q - 1);
      assert KeepsAt(events, db, q - 1, n);
    }
  }

  // ---------- The section that is stored ----------

  /** How many events have happened when block k of the section is read. */
  function ReadPoint(schedule: seq<seq<Event>>, k: nat): nat
    requires k < |schedule|
  {
    |Happened(schedule[..k + 1])|
  }

  lemma {:induction false} HappenedPrefix(schedule: seq<seq<Event>>, k: nat)
    requires k <= |schedule|
    ensures Happened(schedule[..k]) <= Happened(schedule)
    decreases |schedule|
  {
    if k < |schedule| {
      var most := schedule[..|schedule| - 1];
      HappenedPrefix(most, k);
      assert most[..k] == schedule[..k];
    } else {
      assert schedule[..k] == schedule;
    }
  }

  lemma ReadIs(db: Db, schedule: seq<seq<Event>>, start: nat, k: nat)
    requires k < |schedule|
    ensures var events := Happened(schedule);
            && ReadPoint(schedule, k) <= |events|
            && Read(db, schedule, start, k) == CanonicalHeader(DbAt(events, db, ReadPoint(schedule, k)), start + k)
  {
    HappenedPrefix(schedule, k + 1);
    var events := Happened(schedule);
    assert events[..ReadPoint(schedule, k)] == Happened(schedule[..k + 1]);
  }

  /** An announced reorg that begins in the section replaces a block of it that has been read. */
  ghost predicate Overtaken(schedule: seq<seq<Event>>, db: Db, start: nat, size: nat)
    requires size < |schedule|
  {
    exists k: nat, i: nat, head: Number {:trigger OvertakenBy(schedule, db, start, k, i, head)} ::
      k < size && OvertakenBy(schedule, db, start, k, i, head)
  }

  ghost predicate OvertakenBy(schedule: seq<seq<Event>>, db: Db, start: nat, k: nat, i: nat, head: Number)
    requires k < |schedule|
  {
    var events := Happened(schedule);
    && ReadPoint(schedule, k) <= i && ReorgAt(events, db, i, head) && NewHead(head, true) in events
    && start <= head < start + k && !Keeps(DbAt(events, db, i), events[i].db, start + k)
  }

  function BlocksOf(backend: Backend, section: nat): seq<Header> {
    if section in backend then backend[section] else []
  }

  ghost predicate AllCanonical(db: Db, blocks: seq<Header>, start: nat) {
    forall k | 0 <= k < |blocks| :: CanonicalHeader(db, start + k) == Some(blocks[k])
  }

  /** An announced reorg that leaves the sections alone does not begin below the next one. */
  lemma NotBelow(events: seq<Event>, size: nat, section: nat, head: Number)
    requires size > 0 && Lowest(events, size, section) == section && NewHead(head, true) in events
    ensures Start(section, size) <= head
  {
    LowestStays(events, size, section);
    var i :| 0 <= i < |events| && events[i] == NewHead(head, true);
    assert !Reorgs(events[i], size, section);
    WithinSection(head, size);
    StartGrows(section, head / size, size);
  }

  /** A block of the section that no reorg has overtaken is canonical in the end. */
  lemma NotOvertaken(db: Db, schedule: seq<seq<Event>>, size: nat, section: nat, k: nat)
    requires k < size < |schedule| && Lowest(Happened(schedule), size, section) == section
    requires Announced(Happened(schedule), db)
    requires Read(db, schedule, Start(section, size), k).Some? && !Overtaken(schedule, db, Start(section, size), size)
    ensures CanonicalHeader(Latest(Happened(schedule), db), Start(section, size) + k)
              == Read(db, schedule, Start(section, size), k)
  {
    var events, start := Happened(schedule), Start(section, size);
    ReadIs(db, schedule, start, k);
    var p := ReadPoint(schedule, k);
    var n := start + k;
    forall i {:trigger KeepsAt(events, db, i, n)} | p <= i < |events|
      ensures KeepsAt(events, db, i, n)
    {
      KeptUnlessOvertaken(db, schedule, size, section, k, i);
    }
    KeptStays(events, db, n, p, |events|);
    assert events[..|events|] == events;
  }

  lemma KeptUnlessOvertaken(db: Db, schedule: seq<seq<Event>>, size: nat, section: nat, k: nat, i: nat)
    requires k < size < |schedule| && Lowest(Happened(schedule), size, section) == section
    requires Announced(Happened(schedule), db) && !Overtaken(schedule, db, Start(section, size), size)
    requires ReadPoint(schedule, k) <= i < |Happened(schedule)|
    ensures KeepsAt(Happened(schedule), db, i, Start(section, size) + k)
  {
    var events, start := Happened(schedule), Start(section, size);
    assert AnnouncedAt(events, db, i);
    if events[i].ChainChanged? && !Grows(DbAt(events, db, i), events[i].db) {
      var head: Number :| ReorgAt(events, db, i, head) && NewHead(head, true) in events;
      NotBelow(events, size, section, head);
      assert !OvertakenBy(schedule, db, start, k, i, head);
    }
  }

  /** Once a reorg has overtaken a block, this is not canonical in the end, unless replaced blocks come back. */
  lemma OvertakenIsStale(db: Db, schedule: seq<seq<Event>>, start: nat, k: nat, i: nat, head: Number)
    requires k < |schedule| && OvertakenBy(schedule, db, start, k, i, head) && NoReturn(Happened(schedule), db)
    requires Read(db, schedule, start, k).Some?
    ensures CanonicalHeader(Latest(Happened(schedule), db), start + k) != Read(db, schedule, start, k)
  {
    var events, n := Happened(schedule), start + k;
    ReadIs(db, schedule, start, k);
    var p := ReadPoint(schedule, k);
    DbStep(events, db, i);
    assert events[..|events|] == events;
    assert Latest(events, db) == DbAt(events, db, |events|);
    var was := CanonicalHeader(DbAt(events, db, p), n);
    if CanonicalHeader(DbAt(events, db, i), n) == was {
      assert CanonicalHeader(DbAt(events, db, i + 1), n) != was;
    }
  }

  /** The blocks are the ones found when they were read. */
  predicate ReadAs(db: Db, schedule: seq<seq<Event>>, start: nat, blocks: seq<Header>) {
    |blocks| < |schedule| && forall k | 0 <= k < |blocks| :: Read(db, schedule, start, k) == Some(blocks[k])
  }

  lemma SectionReadAs(db: Db, schedule: seq<seq<Event>>, size: nat, section: nat, shead: Heads, shead': Heads,
                      backend: Backend)
    requires 0 < size < |schedule| && IsNextSection(db, schedule, size, section, shead, shead', backend)
    ensures |backend[section]| == size && ReadAs(db, schedule, Start(section, size), backend[section])
  {
  }

  lemma BlockStays(db: Db, schedule: seq<seq<Event>>, size: nat, section: nat, start: nat, blocks: seq<Header>, k: nat)
    requires size == |blocks| && k < size && start == Start(section, size) && ReadAs(db, schedule, start, blocks)
    requires Lowest(Happened(schedule), size, section) == section && Announced(Happened(schedule), db)
    requires !Overtaken(schedule, db, start, size)
    ensures CanonicalHeader(Latest(Happened(schedule), db), start + k) == Some(blocks[k])
  {
    assert Read(db, schedule, start, k) == Some(blocks[k]);
    NotOvertaken(db, schedule, size, section, k);
  }

  lemma NoneOvertaken(db: Db, schedule: seq<seq<Event>>, size: nat, section: nat, blocks: seq<Header>)
    requires 0 < size == |blocks| && ReadAs(db, schedule, Start(section, size), blocks)
    requires Lowest(Happened(schedule), size, section) == section && Announced(Happened(schedule), db)
    requires !Overtaken(schedule, db, Start(section, size), size)
    ensures AllCanonical(Latest(Happened(schedule), db), blocks, Start(section, size))
  {
    var start := Start(section, size);
    forall k | 0 <= k < |blocks|
      ensures CanonicalHeader(Latest(Happened(schedule), db), start + k) == Some(blocks[k])
    {
      BlockStays(db, schedule, size, section, start, blocks, k);
    }
  }

  lemma SomeOvertaken(db: Db, schedule: seq<seq<Event>>, size: nat, start: nat, blocks: seq<Header>)
    requires |blocks| == size && ReadAs(db, schedule, start, blocks) && NoReturn(Happened(schedule), db)
    requires Overtaken(schedule, db, start, size)
    ensures !AllCanonical(Latest(Happened(schedule), db), blocks, start)
  {
    var k: nat, i: nat, head: Number :| k < size && OvertakenBy(schedule, db, start, k, i, head);
    OvertakenIsStale(db, schedule, start, k, i, head);
    assert Read(db, schedule, start, k) == Some(blocks[k]);
  }

  /**
    After a section has been stored, with all changes of the chain announced: its blocks are canonical if no reorg that
    begins in the section has overtaken the reading; and only if, unless replaced blocks come back.
   */
  lemma StaleIffOvertaken(db: Db, schedule: seq<seq<Event>>, size: nat, section: nat, shead: Heads, shead': Heads,
                          backend: Backend)
    requires 0 < size < |schedule| && IsNextSection(db, schedule, size, section, shead, shead', backend)
    requires Lowest(Happened(schedule), size, section) == section && Announced(Happened(schedule), db)
    ensures var canonical := AllCanonical(Latest(Happened(schedule), db), backend[section], Start(section, size));
            && (!Overtaken(schedule, db, Start(section, size), size) ==> canonical)
            && (NoReturn(Happened(schedule), db) ==>
                (canonical <==> !Overtaken(schedule, db, Start(section, size), size)))
  {
    SectionReadAs(db, schedule, size, section, shead, shead', backend);
    if !Overtaken(schedule, db, Start(section, size), size) {
      NoneOvertaken(db, schedule, size, section, backend[section]);
    } else if NoReturn(Happened(schedule), db) {
      SomeOvertaken(db, schedule, size, Start(section, size), backend[section]);
    }
  }

  /** One round of the update loop: whether what it stores is canonical in the end. */
  method UpdateAndCompare(indexer: ChainIndexer, schedule: seq<seq<Event>>, commits: bool) returns (stored: bool)
    requires indexer.Valid() && |schedule| == indexer.size + 1 && Announced(Happened(schedule), indexer.db)
    modifies indexer
    ensures indexer.Valid()
    ensures stored ==>
              var section := old(indexer.storedSections);
              var start := Start(section, indexer.size);
              var canonical := AllCanonical(indexer.db, BlocksOf(indexer.backend, section), start);
              && (!Overtaken(schedule, old(indexer.db), start, indexer.size) ==> canonical)
              && (NoReturn(Happened(schedule), old(indexer.db)) ==>
                  (canonical <==> !Overtaken(schedule, old(indexer.db), start, indexer.size)))
  {
    ghost var db, section, shead := indexer.db, indexer.storedSections, indexer.shead;
    var processed;
    ghost var upto;
    processed, stored, upto := indexer.Update(schedule, commits);
    if stored {
      assert schedule[..|schedule|] == schedule;
      StaleIffOvertaken(db, schedule, indexer.size, section, shead, indexer.shead, indexer.backend);
    }
  }

  /** Section 0 is read while the chain is as at first, and stored after some last events. */
  method StoreTwo(last: seq<Event>) returns (indexer: ChainIndexer)
    requires Lowest(last, 2, 0) == 0
    ensures fresh(indexer) && indexer.Valid() && indexer.storedSections == 1 && indexer.db == Latest(last, First())
    ensures 0 in indexer.backend && indexer.backend[0] == [Header(1, NO_HASH, 0, 1), Header(2, 1, 1, 1)]
  {
    indexer := new ChainIndexer(2, 0, First(), 0, map[], map[]);
    indexer.NewHead(1, false);
    ghost var schedule := [[], [], last];
    LateChange(last, First());
    assert Read(First(), schedule, 0, 0) == CanonicalHeader(First(), 0);
    assert Read(First(), schedule, 0, 1) == CanonicalHeader(First(), 1);
    var processed, stored, upto := indexer.Update([[], [], last], true);
    assert schedule[..3] == schedule;
  }

  /** A reorg inside the section being read goes unnoticed: the block stored for number 1 is not the canonical one. */
  method StaleSection() returns (indexer: ChainIndexer)
    ensures indexer.Valid() && indexer.storedSections == 1
    ensures CanonicalHeader(indexer.db, 1) == Some(Header(3, 1, 1, 2))
    ensures 0 in indexer.backend && indexer.backend[0] == [Header(1, NO_HASH, 0, 1), Header(2, 1, 1, 1)]
  {
    indexer := StoreTwo([NewHead(0, true), ChainChanged(Second())]);
  }

  lemma LateChange(last: seq<Event>, db: Db)
    ensures var schedule := [[], [], last];
            && Happened(schedule) == last && Happened(schedule[..1]) == [] && Happened(schedule[..2]) == []
            && Latest([], db) == db
  {
    var schedule := [[], [], last];
    assert schedule[..1][..0] == [];
    assert Happened(schedule[..1]) == [];
    assert schedule[..2][..1] == schedule[..1];
    assert Happened(schedule[..2]) == [];
    assert Happened(schedule) == [] + last == last;
  }

  /**
    A block that was replaced after it had been read is canonical again: the reorg was overtaken by another one back.
   */
  method ReturnedSection() returns (indexer: ChainIndexer)
    ensures indexer.Valid() && indexer.storedSections == 1 && AllCanonical(indexer.db, BlocksOf(indexer.backend, 0), 0)
    ensures Overtaken(Returning(), First(), 0, 2)
  {
    var last := Returning()[2];
    indexer := StoreTwo(last);
    assert Latest(last, First()) == First();
    ReturningOvertakes();
  }

  lemma ReturningOvertakes()
    ensures Overtaken(Returning(), First(), 0, 2)
  {
    var last := Returning()[2];
    LateChange(last, First());
    assert last[..0] == [];
    SecondReplaces();
    assert OvertakenBy(Returning(), First(), 0, 1, 0, 0);
  }

  lemma SecondReplaces()
    ensures Stays(First(), Second(), 0) && !Keeps(First(), Second(), 1)
  {
  }

  function First(): Db {
    ChainDb(map[0 := 1, 1 := 2], map[1 := Header(1, NO_HASH, 0, 1), 2 := Header(2, 1, 1, 1)])
  }

  function Second(): Db {
    ChainDb(map[0 := 1, 1 := 3], map[1 := Header(1, NO_HASH, 0, 1), 3 := Header(3, 1, 1, 2)])
  }

  function Returning(): seq<seq<Event>> {
    [[], [], [ChainChanged(Second()), NewHead(0, true), ChainChanged(First()), NewHead(0, true)]]
  }

  // ---------- After a stale section ----------

  /** Each canonical block is the child of the canonical block before. */
  ghost predicate Chained(db: Db) {
    forall n: nat {:trigger CanonicalHeader(db, n)} | n > 0 && CanonicalHeader(db, n).Some? ::
      CanonicalHeader(db, n - 1).Some? && CanonicalHeader(db, n).value.parent == CanonicalHeader(db, n - 1).value.hash
  }

  /** The canonical block before the section is another than the one that the stored sections end with. */
  ghost predicate Blocked(db: Db, shead: Heads, section: nat, size: nat) {
    && section > 0 && size > 0 && section - 1 in shead && CanonicalHeader(db, Start(section, size) - 1).Some?
    && CanonicalHeader(db, Start(section, size) - 1).value.hash != shead[section - 1]
  }

  /** Changes keep the blocks before the section and leave chains, and no reorg to below the section is announced. */
  ghost predicate Quiet(events: seq<Event>, db: Db, size: nat, section: nat)
    requires size > 0
  {
    && Chained(db) && (forall i | 0 <= i < |events| && events[i].ChainChanged? :: Chained(events[i].db))
    && (forall i, n: nat {:trigger KeepsAt(events, db, i, n)} | 0 <= i < |events| && n < Start(section, size) ::
          KeepsAt(events, db, i, n))
    && (forall i | 0 <= i < |events| :: !Reorgs(events[i], size, section))
  }

  lemma {:induction false} QuietIsChained(events: seq<Event>, db: Db, size: nat, section: nat, p: nat)
    requires size > 0 && Quiet(events, db, size, section) && p <= |events|
    ensures Chained(DbAt(events, db, p))
  {
    if p > 0 {
      QuietIsChained(events, db, size, section, p - 1);
      DbStep(events, db, p - 1);
    }
  }

  lemma QuietStaysBlocked(events: seq<Event>, db: Db, shead: Heads, size: nat, section: nat)
    requires size > 0 && Quiet(events, db, size, section) && Blocked(db, shead, section, size)
    ensures Lowest(events, size, section) == section
    ensures Chained(Latest(events, db)) && Blocked(Latest(events, db), shead, section, size)
  {
    LowestStays(events, size, section);
    KeptStays(events, db, Start(section, size) - 1, 0, |events|);
    QuietIsChained(events, db, size, section, |events|);
    assert events[..|events|] == events && events[..0] == [];
  }

  /** A blocked indexer cannot read the first block of the next section. */
  lemma BlockedReadsNothing(db: Db, schedule: seq<seq<Event>>, shead: Heads, size: nat, section: nat)
    requires 0 < size < |schedule| && section < U64 && Quiet(schedule[0], db, size, section)
    requires Blocked(db, shead, section, size)
    ensures !ReadsOn(db, schedule, Start(section, size), HeadBefore(shead, section), 0)
    ensures Happened(schedule[..1]) == schedule[0]
  {
    assert schedule[..1][..0] == [];
    assert Happened(schedule[..1]) == [] + schedule[0] == schedule[0];
    QuietStaysBlocked(schedule[0], db, shead, size, section);
  }

  /** Steps in which the chain may change, but not below the section. */
  ghost predicate QuietRun(steps: seq<Step>, db: Db, known: nat, section: nat, size: nat, confirms: nat)
    requires size > 0
    decreases |steps|
  {
    steps == [] ||
    match steps[0]
    case Meanwhile(events) =>
      Quiet(events, db, size, section)
        && QuietRun(steps[1..], Latest(events, db), KnownOf(events, size, confirms, known), section, size, confirms)
    case Update(schedule, _) =>
      && |schedule| == size + 1
      && if known > section
         then Quiet(schedule[0], db, size, section)
           && QuietRun(steps[1..], Latest(schedule[0], db), section, section, size, confirms)
         else QuietRun(steps[1..], db, known, section, size, confirms)
  }

  /** From there on no section is stored, until a reorg is announced that drops the one before. */
  method RunBlocked(indexer: ChainIndexer, steps: seq<Step>)
    requires indexer.Valid() && Blocked(indexer.db, indexer.shead, indexer.storedSections, indexer.size)
    requires QuietRun(steps, indexer.db, indexer.knownSections, indexer.storedSections, indexer.size, indexer.confirms)
    modifies indexer
    ensures indexer.Valid() && indexer.storedSections == old(indexer.storedSections)
    ensures indexer.shead == old(indexer.shead)
    ensures Blocked(indexer.db, indexer.shead, indexer.storedSections, indexer.size)
  {
    for i := 0 to |steps|
      invariant indexer.Valid() && indexer.storedSections == old(indexer.storedSections)
      invariant indexer.shead == old(indexer.shead)
      invariant Blocked(indexer.db, indexer.shead, indexer.storedSections, indexer.size)
      invariant QuietRun(steps[i..], indexer.db, indexer.knownSections, indexer.storedSections, indexer.size,
                         indexer.confirms)
    {
      assert steps[i..][1..] == steps[i + 1..];
      StepBlocked(indexer, steps[i], steps[i..]);
    }
  }

  method StepBlocked(indexer: ChainIndexer, step: Step, ghost steps: seq<Step>)
    requires indexer.Valid() && Blocked(indexer.db, indexer.shead, indexer.storedSections, indexer.size) && steps != []
    requires step == steps[0]
    requires QuietRun(steps, indexer.db, indexer.knownSections, indexer.storedSections, indexer.size, indexer.confirms)
    modifies indexer
    ensures indexer.Valid() && indexer.storedSections == old(indexer.storedSections)
    ensures indexer.shead == old(indexer.shead)
    ensures Blocked(indexer.db, indexer.shead, indexer.storedSections, indexer.size)
    ensures QuietRun(steps[1..], indexer.db, indexer.knownSections, indexer.storedSections, indexer.size,
                     indexer.confirms)
  {
    ghost var db, shead, section, size := indexer.db, indexer.shead, indexer.storedSections, indexer.size;
    assert shead == Truncated(shead, section);
    match step
    case Meanwhile(events) =>
      QuietStaysBlocked(events, db, shead, size, section);
      indexer.Perform(events);
    case Update(schedule, commits) =>
      if indexer.knownSections > indexer.storedSections {
        BlockedReadsNothing(db, schedule, shead, size, section);
        QuietStaysBlocked(schedule[0], db, shead, size, section);
      }
      var processed, stored, upto := indexer.Update(schedule, commits);
  }

  /** A hash belongs to one header. */
  ghost predicate Genuine(db: Db, blocks: seq<Header>) {
    forall k | 0 <= k < |blocks| && blocks[k].hash in db.headers :: db.headers[blocks[k].hash] == blocks[k]
  }

  /** If a block of a section is canonical, so are all before it. */
  lemma {:induction false} CanonicalBelow(db: Db, prev: Hash, blocks: seq<Header>, start: nat, j: nat, k: nat)
    requires Chained(db) && Genuine(db, blocks) && Unbroken(prev, blocks, start) && k <= j < |blocks|
    requires CanonicalHeader(db, start + j).Some? && CanonicalHeader(db, start + j).value.hash == blocks[j].hash
    ensures CanonicalHeader(db, start + k) == Some(blocks[k])
    decreases j
  {
    assert CanonicalHeader(db, start + j) == Some(blocks[j]);
    if k < j {
      assert Follows(prev, blocks, start, j);
      assert blocks[..j][j - 1] == blocks[j - 1];
      CanonicalBelow(db, prev, blocks, start, j - 1, k);
    }
  }

  lemma AllCanonicalBelow(db: Db, prev: Hash, blocks: seq<Header>, start: nat)
    requires Chained(db) && Genuine(db, blocks) && Unbroken(prev, blocks, start) && blocks != []
    requires CanonicalHeader(db, start + |blocks| - 1).Some?
    requires CanonicalHeader(db, start + |blocks| - 1).value.hash == blocks[|blocks| - 1].hash
    ensures AllCanonical(db, blocks, start)
  {
    forall k | 0 <= k < |blocks|
      ensures CanonicalHeader(db, start + k) == Some(blocks[k])
    {
      CanonicalBelow(db, prev, blocks, start, |blocks| - 1, k);
    }
  }

  /** A stale section blocks the indexer. */
  lemma StaleIsBlocked(db: Db, count: nat, shead: Heads, backend: Backend, size: nat)
    requires Sealed(count, shead, backend, size) && count > 0 && Chained(db)
    requires Genuine(db, BlocksOf(backend, count - 1))
    requires CanonicalHeader(db, Start(count, size) - 1).Some?
    requires !AllCanonical(db, BlocksOf(backend, count - 1), Start(count - 1, size))
    ensures Blocked(db, shead, count, size)
  {
    assert SectionOk(shead, backend, size, count - 1);
    var blocks, start := backend[count - 1], Start(count - 1, size);
    if CanonicalHeader(db, start + size - 1).value.hash == blocks[size - 1].hash {
      AllCanonicalBelow(db, HeadBefore(shead, count - 1), blocks, start);
    }
  }
}
