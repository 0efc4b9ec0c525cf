/**
  requestDistributor of les/distributor.go: requests wait in a queue in the order of their
  creation, also when one is queued again, and are given to peers that can take them now or
  soonest.
 */
module Distributor {
  import opened Options
  import WeightedSelect

  type Peer = nat

  /** What peers and request callbacks answer: both may change from call to call. */
  datatype Env = Env(canQueue: Peer -> bool, canSend: (nat, Peer) -> bool, wait: (nat, Peer) -> nat,
                     bufRemain: (nat, Peer) -> nat)

  class Request {
    const id: nat
    var reqOrder: nat
    // the channel that reports the peer is there and not closed yet
    var open: bool

    constructor (id: nat)
      ensures this.id == id && reqOrder == 0 && !open
    {
      this.id, reqOrder, open := id, 0, false;
    }
  }

  /** The peer can take the request at all. */
  predicate Serves(env: Env, peer: Peer, r: Request) {
    env.canQueue(peer) && env.canSend(r.id, peer)
  }

  /** Where the first request is that the peer can serve. */
  ghost function First(env: Env, peer: Peer, queue: seq<Request>): (k: nat)
    ensures k <= |queue| && (k < |queue| ==> env.canQueue(peer) && env.canSend(queue[k].id, peer))
    ensures forall j | 0 <= j < k :: !env.canQueue(peer) || !env.canSend(queue[j].id, peer)
  {
    if queue == [] || Serves(env, peer, queue[0]) then 0 else 1 + First(env, peer, queue[1..])
  }

  ghost function WaitFor(env: Env, peer: Peer, queue: seq<Request>): nat
    requires First(env, peer, queue) < |queue|
  {
    env.wait(queue[First(env, peer, queue)].id, peer)
  }

  // ---------- One pass over the queue ----------

  datatype Best = Best(peer: Peer, req: Request, wait: nat)

  /**
    Peers that have been given their first request, those of them that can take it now, and the soonest of the others.
   */
  datatype Scan = Scan(checked: set<Peer>, ready: map<Peer, Request>, best: Option<Best>)

  /** The pass has come to request i, and there to the peers in done. */
  ghost predicate Reached(env: Env, queue: seq<Request>, i: nat, done: set<Peer>, peer: Peer) {
    First(env, peer, queue) < |queue| && (First(env, peer, queue) < i || (First(env, peer, queue) == i && peer in done))
  }

  ghost predicate PeerOk(env: Env, queue: seq<Request>, peers: set<Peer>, i: nat, done: set<Peer>, scan: Scan,
                         peer: Peer) {
    && (peer in scan.checked <==> peer in peers && Reached(env, queue, i, done, peer))
    && (peer in scan.ready <==> peer in scan.checked && WaitFor(env, peer, queue) == 0)
    && (peer in scan.ready ==> scan.ready[peer] == queue[First(env, peer, queue)])
    && (peer in scan.checked && WaitFor(env, peer, queue) > 0 ==>
        scan.best.Some? && scan.best.value.wait <= WaitFor(env, peer, queue))
  }

  ghost predicate BestOk(env: Env, queue: seq<Request>, scan: Scan) {
    scan.best.Some? ==>
      && scan.best.value.peer in scan.checked && First(env, scan.best.value.peer, queue) < |queue|
      && scan.best.value.req == queue[First(env, scan.best.value.peer, queue)]
      && scan.best.value.wait == WaitFor(env, scan.best.value.peer, queue) > 0
  }

  ghost predicate ScanOk(env: Env, queue: seq<Request>, peers: set<Peer>, i: nat, done: set<Peer>, scan: Scan) {
    && (forall peer: Peer {:trigger PeerOk(env, queue, peers, i, done, scan, peer)} ::
        PeerOk(env, queue, peers, i, done, scan, peer))
    && BestOk(env, queue, scan)
  }

  /** What nextRequest notes when it looks at a peer for a request. */
  function Considered(env: Env, r: Request, peer: Peer, scan: Scan): Scan {
    if peer in scan.checked || !Serves(env, peer, r) then scan
    else if env.wait(r.id, peer) == 0 then
      Scan(scan.checked + {peer}, scan.ready[peer := r], scan.best)
    else
      Scan(scan.checked + {peer}, scan.ready,
           if scan.best == None
             || env.wait(r.id, peer) < scan.best.value.wait then Some(Best(peer, r, env.wait(r.id, peer)))
                  else scan.best)
  }

  lemma {:induction false} ConsiderKeeps(env: Env, queue: seq<Request>, peers: set<Peer>, i: nat, done: set<Peer>,
                                         scan: Scan, peer: Peer)
    requires ScanOk(env, queue, peers, i, done, scan) && i < |queue| && peer in peers && peer !in done
    ensures ScanOk(env, queue, peers, i, done + {peer}, Considered(env, queue[i], peer, scan))
    ensures (peer !in scan.checked && Serves(env, peer, queue[i])) <==> First(env, peer, queue) == i
  {
    var scan', done' := Considered(env, queue[i], peer, scan), done + {peer};
    assert PeerOk(env, queue, peers, i, done, scan, peer);
    forall p: Peer
      ensures PeerOk(env, queue, peers, i, done', scan', p)
    {
      assert PeerOk(env, queue, peers, i, done, scan, p);
    }
    if scan.best.Some? {
      assert PeerOk(env, queue, peers, i, done, scan, scan.best.value.peer);
    }
  }

  lemma {:induction false} NextElement(env: Env, queue: seq<Request>, peers: set<Peer>, i: nat, scan: Scan)
    requires ScanOk(env, queue, peers, i, peers, scan)
    ensures ScanOk(env, queue, peers, i + 1, {}, scan)
  {
    var next := i + 1;
    forall p: Peer
      ensures PeerOk(env, queue, peers, next, {}, scan, p)
    {
      assert PeerOk(env, queue, peers, i, peers, scan, p);
    }
  }

  // ---------- The queue ----------

  type Orders = map<Request, nat>

  /** Orders are given out once. */
  ghost predicate Unique(order: Orders, last: nat) {
    && (forall r | r in order :: 0 < order[r] <= last)
    && (forall r, s | r in order && s in order && order[r] == order[s] :: r == s)
  }

  ghost predicate Sorted(order: Orders, queue: seq<Request>) {
    && (forall i | 0 <= i < |queue| :: queue[i] in order)
    && (forall i, j | 0 <= i < j < |queue| :: order[queue[i]] < order[queue[j]])
  }

  lemma NewOrder(order: Orders, queue: seq<Request>, last: nat, r: Request)
    requires Unique(order, last) && Sorted(order, queue) && r !in order
    ensures Unique(order[r := last + 1], last + 1) && Sorted(order[r := last + 1], queue)
    ensures forall i | 0 <= i < |queue| :: order[queue[i]] < last + 1
  {
  }

  /** The request belongs between the requests before and those from at on. */
  ghost predicate Fits(order: Orders, queue: seq<Request>, r: Request, at: nat)
    requires Sorted(order, queue) && r in order
  {
    && at <= |queue|
    && (forall i | 0 <= i < at :: order[queue[i]] < order[r])
    && (forall i | at <= i < |queue| :: order[queue[i]] > order[r])
  }

  function Inserted(queue: seq<Request>, r: Request, at: nat): seq<Request>
    requires at <= |queue|
  {
    queue[..at] + [r] + queue[at..]
  }

  lemma InsertKeepsSorted(order: Orders, queue: seq<Request>, r: Request, at: nat)
    requires Sorted(order, queue) && r in order && Fits(order, queue, r, at)
    ensures Sorted(order, Inserted(queue, r, at))
  {
    var q := Inserted(queue, r, at);
    assert forall i | 0 <= i < |q| :: q[i] == if i < at then queue[i] else if i == at then r else queue[i - 1];
  }

  lemma RemoveKeepsSorted(order: Orders, queue: seq<Request>, at: nat)
    requires Sorted(order, queue) && at < |queue|
    ensures Sorted(order, queue[..at] + queue[at + 1..]) && queue[at] !in queue[..at] + queue[at + 1..]
  {
    var q := queue[..at] + queue[at + 1..];
    assert forall i | 0 <= i < |q| :: q[i] == if i < at then queue[i] else queue[i + 1];
  }

  /** No registered peer can take the request. */
  ghost predicate Hopeless(env: Env, peers: set<Peer>, r: Request) {
    forall peer | peer in peers :: !env.canQueue(peer) || !env.canSend(r.id, peer)
  }

  /** Peers are selected with a chance by the buffer they have left. */
  function SelectionWeight(env: Env, r: Request, peer: Peer): (weight: nat)
    ensures weight > 0
  {
    env.bufRemain(r.id, peer) + 1
  }

  /** The selector holds the peers that are ready, with their weights. */
  ghost predicate SelectorOk(weights: map<Peer, int>, env: Env, ready: map<Peer, Request>, peers: set<Peer>) {
    && weights.Keys == peers && peers <= ready.Keys
    && forall peer {:trigger weights[peer]} | peer in peers :: weights[peer] == env.bufRemain(ready[peer].id, peer) + 1
  }

  lemma SelectorAdd(weights: map<Peer, int>, env: Env, ready: map<Peer, Request>, peers: set<Peer>, peer: Peer)
    requires SelectorOk(weights, env, ready, peers) && peer in ready
    ensures SelectorOk(weights[peer := SelectionWeight(env, ready[peer], peer)], env, ready, peers + {peer})
  {
  }

  method Note(sel: WeightedSelect.WeightedRandomSelect, peer: Peer, weight: nat, ghost weights: map<Peer, int>)
    requires sel.Valid() && sel.Weights() == weights && weight > 0
    modifies sel
    ensures sel.Valid() && sel.Weights() == weights[peer := weight]
  {
    sel.SetWeight(peer, weight);
  }

  /** Fills a selector with the peers that are ready, in any order. */
  method NewSelector(env: Env, ready: map<Peer, Request>) returns (sel: WeightedSelect.WeightedRandomSelect)
    ensures fresh(sel) && sel.Valid() && SelectorOk(sel.Weights(), env, ready, ready.Keys)
  {
    sel := new WeightedSelect.WeightedRandomSelect();
    var todo := ready.Keys;
    ghost var done: set<Peer>, weights: map<Peer, int> := {}, map[];
    while todo != {}
      invariant done + todo == ready.Keys && SelectorOk(weights, env, ready, done)
      invariant fresh(sel) && sel.Valid() && sel.Weights() == weights
      decreases |todo|
    {
      var peer :| peer in todo;
      SelectorAdd(weights, env, ready, done, peer);
      assert (done + {peer}) + (todo - {peer}) == done + todo;
      Note(sel, peer, SelectionWeight(env, ready[peer], peer), weights);
      weights, done := weights[peer := SelectionWeight(env, ready[peer], peer)], done + {peer};
      todo := todo - {peer};
    }
    assert done == ready.Keys;
  }

  /** choose always finds one of the peers that are ready. */
  method Choose(env: Env, ready: map<Peer, Request>) returns (peer: Peer)
    requires ready != map[]
    ensures peer in ready
  {
    var sel := NewSelector(env, ready);
    var current: Peer -> nat := (p: Peer) => if p in ready then SelectionWeight(env, ready[p], p) else 0;
    ghost var weights := sel.Weights();
    var choice := sel.Choose(current);
    ghost var p := SomeoneStays(weights, sel.Weights(), env, ready, current);
    sel.SumPositive(p);
    peer := choice.value;
  }

  /** While the weights are as they were, no peer loses its place in the selector. */
  lemma SomeoneStays(before: map<Peer, int>, now: map<Peer, int>, env: Env, ready: map<Peer, Request>,
                     current: Peer -> nat) returns (p: Peer)
    requires ready != map[] && SelectorOk(before, env, ready, ready.Keys)
    requires WeightedSelect.Follows(before, now, current)
    requires forall q {:trigger current(q)} | q in ready :: current(q) == SelectionWeight(env, ready[q], q)
    ensures p in now && now[p] > 0
  {
    p :| p in ready;
    assert before[p] == SelectionWeight(env, ready[p], p);
  }

  class Distributor {
    var reqQueue: seq<Request>
    var lastReqOrder: nat
    var peers: set<Peer>
    // the order of every request that was ever queued
    ghost var order: Orders

    ghost predicate Tied(r: Request)
      reads this`order, this`reqQueue, r
    {
      r in order ==> r.reqOrder == order[r] && (r.open <==> r in reqQueue)
    }

    /** The queue is strictly sorted; requests keep their order for good, and no two have the same. */
    ghost predicate Valid()
      reads this, order.Keys
    {
      && Unique(order, lastReqOrder) && Sorted(order, reqQueue)
      && (forall r {:trigger Tied(r)} | r in order :: Tied(r))
    }

    constructor ()
      ensures Valid() && reqQueue == [] && peers == {} && order == map[] && lastReqOrder == 0
    {
      reqQueue, lastReqOrder, peers, order := [], 0, {}, map[];
    }

    /** Where a request belongs. */
    method FindPlace(r: Request) returns (before: nat)
      requires Sorted(order, reqQueue) && r in order && r.reqOrder == order[r] && r !in reqQueue
      requires Unique(order, lastReqOrder)
      requires forall i | 0 <= i < |reqQueue| :: reqQueue[i].reqOrder == order[reqQueue[i]]
      ensures Fits(order, reqQueue, r, before)
    {
      if |reqQueue| == 0 || r.reqOrder > reqQueue[|reqQueue| - 1].reqOrder {
        return |reqQueue|;
      }
      before := 0;
      while reqQueue[before].reqOrder < r.reqOrder
        invariant before < |reqQueue|
        invariant forall i | 0 <= i < before :: order[reqQueue[i]] < order[r]
        decreases |reqQueue| - before
      {
        before := before + 1;
      }
    }

    /** A new request gets the next order. */
    method Assign(r: Request)
      requires Valid() && r !in reqQueue && (r !in order ==> r.reqOrder == 0 && !r.open)
      modifies this`lastReqOrder, this`order, r`reqOrder
      ensures Valid() && r in order
      ensures r in old(order) ==> order == old(order) && lastReqOrder == old(lastReqOrder)
      ensures r !in old(order) ==>
                && order == old(order)[r := old(lastReqOrder) + 1]
                && forall i | 0 <= i < |reqQueue| :: order[reqQueue[i]] < order[r]
    {
      assert r in order ==> Tied(r);
      if r.reqOrder == 0 {
        NewOrder(order, reqQueue, lastReqOrder, r);
        lastReqOrder := lastReqOrder + 1;
        r.reqOrder := lastReqOrder;
        order := order[r := lastReqOrder];
        forall s | s in order
          ensures Tied(s)
        {
          assert s != r ==> old(Tied(s));
        }
      }
    }

    /** The request goes to its place. */
    method Enqueue(r: Request) returns (ghost at: nat)
      requires Valid() && r in order && r !in reqQueue
      modifies this`reqQueue, r`open
      ensures Valid() && Fits(order, old(reqQueue), r, at) && reqQueue == Inserted(old(reqQueue), r, at)
    {
      assert forall i | 0 <= i < |reqQueue| :: Tied(reqQueue[i]);
      assert Tied(r);
      var place := FindPlace(r);
      at := place;
      InsertKeepsSorted(order, reqQueue, r, place);
      InsertedMembers(reqQueue, r, place);
      reqQueue := Inserted(reqQueue, r, place);
      r.open := true;
      forall s | s in order
        ensures Tied(s)
      {
        assert old(Tied(s));
      }
    }

    /** queue: a new request gets the next order; one that is queued again goes back to its place. */
    method Queue(r: Request) returns (ghost at: nat)
      requires Valid() && r !in reqQueue && (r !in order ==> r.reqOrder == 0 && !r.open)
      modifies this`reqQueue, this`lastReqOrder, this`order, r
      ensures Valid()
      ensures at <= |old(reqQueue)| && reqQueue == Inserted(old(reqQueue), r, at)
      ensures r in old(order) ==> order == old(order)
      ensures r !in old(order) ==> order == old(order)[r := old(lastReqOrder) + 1] && at == |old(reqQueue)|
    {
      Assign(r);
      at := Enqueue(r);
      assert at < |old(reqQueue)| ==> order[old(reqQueue)[at]] > order[r];
    }

    /** remove, for a request whose list element is at a place in the queue. */
    method Remove(r: Request, at: nat)
      requires Valid() && at < |reqQueue| && reqQueue[at] == r
      modifies this`reqQueue, r`open
      ensures Valid() && reqQueue == old(reqQueue)[..at] + old(reqQueue)[at + 1..] && !r.open && r !in reqQueue
    {
      RemoveKeepsSorted(order, reqQueue, at);
      RemovedMembers(reqQueue, at);
      reqQueue := reqQueue[..at] + reqQueue[at + 1..];
      r.open := false;
      forall s | s in order
        ensures Tied(s)
      {
        assert old(Tied(s));
      }
    }

    /** cancel: true exactly if the request was still in the queue. */
    method Cancel(r: Request) returns (cancelled: bool)
      requires Valid() && r in order
      modifies this`reqQueue, r`open
      ensures Valid() && (cancelled <==> r in old(reqQueue)) && r !in reqQueue && !r.open
      ensures !cancelled ==> reqQueue == old(reqQueue)
      ensures forall s | s != r :: s in reqQueue <==> s in old(reqQueue)
    {
      assert Tied(r);
      if !r.open {
        return false;
      }
      var at :| 0 <= at < |reqQueue| && reqQueue[at] == r;
      RemovedMembers(reqQueue, at);
      Remove(r, at);
      cancelled := true;
    }

    /** Looks at all peers for request i of the queue, in any order. */
    method ScanPeers(env: Env, i: nat, soFar: Scan) returns (scan: Scan, canSend: bool)
      requires i < |reqQueue| && ScanOk(env, reqQueue, peers, i, {}, soFar)
      ensures ScanOk(env, reqQueue, peers, i, peers, scan)
      ensures canSend <==> exists peer :: peer in peers && First(env, peer, reqQueue) == i
    {
      scan, canSend := soFar, false;
      var todo := peers;
      assert peers - todo == {};
      while todo != {}
        invariant todo <= peers && ScanOk(env, reqQueue, peers, i, peers - todo, scan)
        invariant canSend <==> exists peer :: peer in peers - todo && First(env, peer, reqQueue) == i
        decreases |todo|
      {
        var peer :| peer in todo;
        var r := reqQueue[i];
        ConsiderKeeps(env, reqQueue, peers, i, peers - todo, scan, peer);
        if peer !in scan.checked && Serves(env, peer, r) {
          canSend := true;
        }
        scan := Considered(env, r, peer, scan);
        assert peers - (todo - {peer}) == peers - todo + {peer};
        todo := todo - {peer};
      }
      assert peers - todo == peers;
    }

    /** The first request fails: its channel is closed, and it leaves the queue. */
    method Fail(r: Request)
      requires Valid() && reqQueue != [] && reqQueue[0] == r
      modifies this`reqQueue, r`open
      ensures Valid() && reqQueue == old(reqQueue)[1..] && !r.open
    {
      Remove(r, 0);
    }

    /** The pass over the queue: requests at the front that no registered peer can take fail. */
    method Pass(env: Env) returns (scan: Scan, ghost failed: nat)
      requires Valid()
      modifies this`reqQueue, reqQueue`open
      ensures Valid() && Midpass(env, peers, old(reqQueue), failed, reqQueue, |reqQueue|, scan)
    {
      ghost var queue0 := reqQueue;
      var i := 0;
      scan, failed := Scan({}, map[], None), 0;
      EmptyScan(env, reqQueue, peers);
      while (peers != {} || i == 0) && i < |reqQueue|
        invariant Valid() && Midpass(env, peers, queue0, failed, reqQueue, i, scan)
        decreases |reqQueue| - i
      {
        var canSend;
        ghost var before := scan;
        scan, canSend := ScanPeers(env, i, scan);
        if !canSend && i == 0 {
          FrontFails(env, peers, queue0, failed, reqQueue, before, scan);
          Fail(reqQueue[0]);
          failed := failed + 1;
        } else {
          PassGoesOn(env, peers, queue0, failed, reqQueue, i, before, scan);
          i := i + 1;
        }
      }
    }

    /**
      nextRequest. The requests that fail are those at the front that no registered peer can take. Of
      the rest, a peer is paired with the first request that it can take, and with the least waiting time.
     */
    method NextRequest(env: Env) returns (peer: Peer, req: Option<Request>, wait: nat, ghost failed: nat)
      requires Valid()
      modifies this`reqQueue, reqQueue`open
      ensures Valid() && failed <= |old(reqQueue)| && reqQueue == old(reqQueue)[failed..]
      ensures FailedOnly(env, peers, old(reqQueue), failed)
      ensures req == None <==> reqQueue == []
      ensures req.Some? ==> Paired(env, reqQueue, peers, peer, req.value, wait)
    {
      var scan;
      scan, failed := Pass(env);
      ScanResult(env, reqQueue, peers, scan);
      peer, req, wait := 0, None, 0;
      if scan.ready != map[] {
        peer := Choose(env, scan.ready);
        req := Some(scan.ready[peer]);
      } else if scan.best.Some? {
        peer, req, wait := scan.best.value.peer, Some(scan.best.value.req), scan.best.value.wait;
      }
    }
  }

  /** The first requests, and no more, are such that no registered peer can take them. */
  ghost predicate FailedOnly(env: Env, peers: set<Peer>, queue: seq<Request>, failed: nat) {
    && failed <= |queue|
    && (forall k | 0 <= k < failed :: Hopeless(env, peers, queue[k]))
    && (failed < |queue| ==> !Hopeless(env, peers, queue[failed]))
  }

  /** The peer gets the first request that it can take, and no other peer could take its first one sooner. */
  ghost predicate Paired(env: Env, queue: seq<Request>, peers: set<Peer>, peer: Peer, req: Request, wait: nat) {
    && peer in peers && First(env, peer, queue) < |queue| && req == queue[First(env, peer, queue)]
    && wait == WaitFor(env, peer, queue)
    && forall p {:trigger First(env, p, queue)} | p in peers && First(env, p, queue) < |queue| ::
         wait <= WaitFor(env, p, queue)
  }

  lemma ScanResult(env: Env, queue: seq<Request>, peers: set<Peer>, scan: Scan)
    requires ScanOk(env, queue, peers, |queue|, {}, scan) && (queue != [] ==> !Hopeless(env, peers, queue[0]))
    ensures forall peer | peer in scan.ready :: Paired(env, queue, peers, peer, scan.ready[peer], 0)
    ensures scan.ready == map[] && scan.best.Some? ==>
              Paired(env, queue, peers, scan.best.value.peer, scan.best.value.req, scan.best.value.wait)
    ensures scan.ready == map[] && scan.best == None <==> queue == []
  {
    forall peer | peer in scan.ready
      ensures Paired(env, queue, peers, peer, scan.ready[peer], 0)
    {
      assert PeerOk(env, queue, peers, |queue|, {}, scan, peer);
    }
    if scan.ready == map[] && scan.best.Some? {
      var best := scan.best.value;
      assert PeerOk(env, queue, peers, |queue|, {}, scan, best.peer);
      forall p | p in peers && First(env, p, queue) < |queue|
        ensures best.wait <= WaitFor(env, p, queue)
      {
        assert PeerOk(env, queue, peers, |queue|, {}, scan, p);
      }
    }
    if queue != [] {
      var p :| p in peers && Serves(env, p, queue[0]);
      assert PeerOk(env, queue, peers, |queue|, {}, scan, p);
    }
  }

  /** The pass is at request i; the first requests of queue0 have failed. */
  ghost predicate Midpass(env: Env, peers: set<Peer>, queue0: seq<Request>, failed: nat, queue: seq<Request>, i: nat,
                          scan: Scan) {
    && failed <= |queue0| && queue == queue0[failed..] && i <= |queue|
    && (i > 0 ==> peers != {} && !Hopeless(env, peers, queue[0]))
    && (forall k | 0 <= k < failed :: Hopeless(env, peers, queue0[k]))
    && ScanOk(env, queue, peers, i, {}, scan)
  }

  lemma FrontFails(env: Env, peers: set<Peer>, queue0: seq<Request>, failed: nat, queue: seq<Request>, scan: Scan,
                   scan': Scan)
    requires Midpass(env, peers, queue0, failed, queue, 0, scan) && queue != []
    requires ScanOk(env, queue, peers, 0, peers, scan') && !exists peer :: peer in peers && First(env, peer, queue) == 0
    ensures Midpass(env, peers, queue0, failed + 1, queue[1..], 0, scan')
  {
    NobodyServesFront(env, queue, peers, scan');
    EmptyScan(env, queue[1..], peers);
  }

  lemma PassGoesOn(env: Env, peers: set<Peer>, queue0: seq<Request>, failed: nat, queue: seq<Request>, i: nat,
                   scan: Scan, scan': Scan)
    requires Midpass(env, peers, queue0, failed, queue, i, scan) && i < |queue|
    requires ScanOk(env, queue, peers, i, peers, scan')
    requires i > 0 || exists peer :: peer in peers && First(env, peer, queue) == 0
    ensures Midpass(env, peers, queue0, failed, queue, i + 1, scan')
  {
    NextElement(env, queue, peers, i, scan');
    if i == 0 {
      var peer :| peer in peers && First(env, peer, queue) == 0;
      assert Serves(env, peer, queue[0]);
    }
  }

  lemma EmptyScan(env: Env, queue: seq<Request>, peers: set<Peer>)
    ensures ScanOk(env, queue, peers, 0, {}, Scan({}, map[], None))
  {
    var scan := Scan({}, map[], None);
    forall p: Peer
      ensures PeerOk(env, queue, peers, 0, {}, scan, p)
    {
    }
  }

  /** At the front nobody has been checked yet; if nobody is now either, the request is hopeless. */
  lemma NobodyServesFront(env: Env, queue: seq<Request>, peers: set<Peer>, scan: Scan)
    requires queue != [] && ScanOk(env, queue, peers, 0, peers, scan)
    requires !exists peer :: peer in peers && First(env, peer, queue) == 0
    ensures Hopeless(env, peers, queue[0]) && scan == Scan({}, map[], None)
  {
    forall p: Peer
      ensures p !in scan.checked && p !in scan.ready
    {
      assert PeerOk(env, queue, peers, 0, peers, scan, p);
    }
    forall p | p in peers
      ensures !Serves(env, p, queue[0])
    {
      assert First(env, p, queue) != 0;
    }
  }

  lemma RemovedMembers(queue: seq<Request>, at: nat)
    requires at < |queue|
    ensures forall s | s != queue[at] :: s in queue[..at] + queue[at + 1..] <==> s in queue
  {
    assert queue == queue[..at] + [queue[at]] + queue[at + 1..];
  }

  lemma InsertedMembers(queue: seq<Request>, r: Request, at: nat)
    requires at <= |queue|
    ensures forall s :: s in Inserted(queue, r, at) <==> s == r || s in queue
  {
    assert queue == queue[..at] + queue[at..];
  }
}
