/**
  Feed of event/feed.go: one-to-many delivery. Send works on a list of select cases whose
  active part is a prefix: a case that has been served is swapped out of it. While Send
  holds the send lock, others subscribe, and cancel subscriptions through the removeSub
  channel at index 0.
 */
module Feed {

  type Chan = nat

  /** A select case: the one that receives removal requests, or that of a subscription. */
  datatype Case = RemoveSub | Sub(id: nat, channel: Chan)

  predicate IsFor(c: Case, channel: Chan) {
    c.Sub? && c.channel == channel
  }

  /** How many of the cases are for a channel. */
  ghost function Count(cs: seq<Case>, channel: Chan): nat {
    if cs == [] then 0
    else Count(cs[..|cs| - 1], channel) + (if IsFor(cs[|cs| - 1], channel) then 1 else 0)
  }

  lemma {:induction false} CountConcat(a: seq<Case>, b: seq<Case>, channel: Chan)
    ensures Count(a + b, channel) == Count(a, channel) + Count(b, channel)
  {
    if b == [] {
      assert a + b == a;
    } else {
      assert (a + b)[..|a + b| - 1] == a + b[..|b| - 1];
      CountConcat(a, b[..|b| - 1], channel);
    }
  }

  lemma CountOne(c: Case, channel: Chan)
    ensures Count([c], channel) == if IsFor(c, channel) then 1 else 0
  {
    assert [c][..0] == [];
  }

  lemma {:induction false} CountNone(cs: seq<Case>, channel: Chan)
    requires forall i | 0 <= i < |cs| :: !IsFor(cs[i], channel)
    ensures Count(cs, channel) == 0
  {
    if cs != [] {
      CountNone(cs[..|cs| - 1], channel);
    }
  }

  // ---------- Changing a list of cases ----------

  /** caseList.find. */
  method Find(cs: seq<Case>, channel: Chan) returns (index: int)
    ensures -1 <= index < |cs|
    ensures index >= 0 ==> IsFor(cs[index], channel)
    ensures index == -1 <==> Count(cs, channel) == 0
  {
    for i := 0 to |cs|
      invariant forall j | 0 <= j < i :: !IsFor(cs[j], channel)
    {
      if IsFor(cs[i], channel) {
        CountDelete(cs, i, channel);
        return i;
      }
    }
    CountNone(cs, channel);
    index := -1;
  }

  /** caseList.delete. */
  function Delete(cs: seq<Case>, index: nat): (r: seq<Case>)
    requires index < |cs|
    ensures |r| == |cs| - 1
  {
    cs[..index] + cs[index + 1..]
  }

  lemma CountDelete(cs: seq<Case>, index: nat, channel: Chan)
    requires index < |cs|
    ensures Count(Delete(cs, index), channel) + (if IsFor(cs[index], channel) then 1 else 0) == Count(cs, channel)
  {
    var a, x, b := cs[..index], [cs[index]], cs[index + 1..];
    assert cs == a + (x + b);
    CountConcat(a, x + b, channel);
    CountConcat(x, b, channel);
    CountConcat(a, b, channel);
    CountOne(cs[index], channel);
  }

  lemma DeleteTakesOne(cs: seq<Case>, index: nat)
    requires index < |cs|
    ensures multiset(Delete(cs, index)) + multiset{cs[index]} == multiset(cs)
  {
    assert cs == cs[..index] + ([cs[index]] + cs[index + 1..]);
  }

  /** What deactivate does to the list; the active part ends before j. */
  function Swapped(cs: seq<Case>, i: nat, j: nat): (r: seq<Case>)
    requires i < |cs| && j < |cs|
    ensures |r| == |cs|
  {
    cs[i := cs[j]][j := cs[i]]
  }

  lemma SwapKeepsAll(cs: seq<Case>, i: nat, j: nat)
    requires i < |cs| && j < |cs|
    ensures multiset(Swapped(cs, i, j)) == multiset(cs)
  {
    assert multiset(cs[i := cs[j]]) == multiset(cs) - multiset{cs[i]} + multiset{cs[j]};
  }

  /** Swapping is deleting two cases and adding them again, as far as counting goes. */
  lemma CountUpdate(cs: seq<Case>, i: nat, c: Case, channel: Chan)
    requires i < |cs|
    ensures Count(cs[i := c], channel) + (if IsFor(cs[i], channel) then 1 else 0)
            == Count(cs, channel) + (if IsFor(c, channel) then 1 else 0)
  {
    var more := cs[i := c];
    assert Delete(more, i) == Delete(cs, i);
    CountDelete(cs, i, channel);
    CountDelete(more, i, channel);
  }

  lemma SwapKeepsCount(cs: seq<Case>, i: nat, j: nat, channel: Chan)
    requires i < |cs| && j < |cs|
    ensures Count(Swapped(cs, i, j), channel) == Count(cs, channel)
  {
    CountUpdate(cs, i, cs[j], channel);
    CountUpdate(cs[i := cs[j]], j, cs[i], channel);
  }

  // ---------- What a Send has done so far ----------

  /**
    Everything that was subscribed at the start of the Send is still waiting in the active part,
    has been served and sits behind it, or has been removed, before or after being served.
   */
  ghost predicate Accounted(start: multiset<Case>, cs: seq<Case>, n: nat, delivered: seq<Case>, dropped: seq<Case>,
                            left: seq<Case>)
  {
    && 1 <= n <= |cs|
    && multiset(delivered) == multiset(cs[n..]) + multiset(left)
    && start == multiset(cs[1..n]) + multiset(delivered) + multiset(dropped)
  }

  lemma SwapOut(m: seq<Case>, k: nat)
    requires k < |m|
    ensures multiset(m) == multiset(Swapped(m, k, |m| - 1)[..|m| - 1]) + multiset{m[k]}
  {
    SwapKeepsAll(m, k, |m| - 1);
    var r := Swapped(m, k, |m| - 1);
    assert r == r[..|m| - 1] + [m[k]];
  }

  /** Swapping a case to the end of the active part and cutting it off takes this case out. */
  lemma ActiveShrinks(cs: seq<Case>, n: nat, i: nat)
    requires 1 <= i < n <= |cs|
    ensures multiset(cs[1..n]) == multiset(Swapped(cs, i, n - 1)[1..n - 1]) + multiset{cs[i]}
  {
    var m := cs[1..n];
    SwapOut(m, i - 1);
    var r, t := Swapped(cs, i, n - 1)[1..n - 1], Swapped(m, i - 1, n - 2)[..n - 2];
    assert r == t;
  }

  lemma ServedGrows(cs: seq<Case>, n: nat, i: nat)
    requires 1 <= i < n <= |cs|
    ensures Swapped(cs, i, n - 1)[n - 1..] == [cs[i]] + cs[n..]
  {
    var r, t := Swapped(cs, i, n - 1)[n - 1..], [cs[i]] + cs[n..];
    assert r == t;
  }

  lemma DeactivateAccounts(start: multiset<Case>, cs: seq<Case>, n: nat, delivered: seq<Case>, dropped: seq<Case>,
                           left: seq<Case>, i: nat)
    requires Accounted(start, cs, n, delivered, dropped, left) && 1 <= i < n
    ensures Accounted(start, Swapped(cs, i, n - 1), n - 1, delivered + [cs[i]], dropped, left)
  {
    ActiveShrinks(cs, n, i);
    ServedGrows(cs, n, i);
    MoveOne(start, multiset(cs[1..n]), multiset(Swapped(cs, i, n - 1)[1..n - 1]), multiset(delivered),
            multiset(dropped), cs[i]);
    assert multiset(delivered + [cs[i]]) == multiset(delivered) + multiset{cs[i]};
  }

  lemma MoveOne(start: multiset<Case>, a: multiset<Case>, a': multiset<Case>, b: multiset<Case>, c: multiset<Case>,
                x: Case)
    requires start == a + b + c && a == a' + multiset{x}
    ensures start == a' + (b + multiset{x}) + c
  {
  }

  lemma RemoveActiveAccounts(start: multiset<Case>, cs: seq<Case>, n: nat, delivered: seq<Case>, dropped: seq<Case>,
                             left: seq<Case>, i: nat)
    requires Accounted(start, cs, n, delivered, dropped, left) && 1 <= i < n
    ensures Accounted(start, Delete(cs, i), n - 1, delivered, dropped + [cs[i]], left)
  {
    var cs' := Delete(cs, i);
    assert cs'[n - 1..] == cs[n..];
    assert cs'[1..n - 1] == Delete(cs[1..n], i - 1);
    DeleteTakesOne(cs[1..n], i - 1);
  }

  lemma RemoveServedAccounts(start: multiset<Case>, cs: seq<Case>, n: nat, delivered: seq<Case>, dropped: seq<Case>,
                             left: seq<Case>, i: nat)
    requires Accounted(start, cs, n, delivered, dropped, left) && n <= i < |cs|
    ensures Accounted(start, Delete(cs, i), n, delivered, dropped, left + [cs[i]])
  {
    var cs' := Delete(cs, i);
    assert cs'[1..n] == cs[1..n];
    assert cs'[n..] == Delete(cs[n..], i - n);
    DeleteTakesOne(cs[n..], i - n);
  }

  // ---------- The state of a feed ----------

  /** The first entry is the removeSub case, and it is the only one. */
  predicate Headed(cs: seq<Case>) {
    |cs| > 0 && cs[0] == RemoveSub && forall i | 0 < i < |cs| :: cs[i].Sub?
  }

  /** Live subscriptions are in one of the lists; removals that wait will find their channel in sendCases. */
  ghost predicate CountOk(cs: seq<Case>, inbox: seq<Case>, waiting: multiset<Chan>, live: multiset<Chan>,
                          channel: Chan) {
    live[channel] == Count(cs, channel) + Count(inbox, channel) && waiting[channel] <= Count(cs, channel)
  }

  ghost predicate CountsOk(cs: seq<Case>, inbox: seq<Case>, waiting: multiset<Chan>, live: multiset<Chan>) {
    forall channel: Chan {:trigger CountOk(cs, inbox, waiting, live, channel)} ::
      CountOk(cs, inbox, waiting, live, channel)
  }

  /** A case with an id already given out occurs at most once, any other not at all. */
  ghost predicate IdOk(cs: seq<Case>, inbox: seq<Case>, nextId: nat, c: Case) {
    multiset(cs)[c] + multiset(inbox)[c] <= if c.RemoveSub? || c.id < nextId then 1 else 0
  }

  ghost predicate IdsOk(cs: seq<Case>, inbox: seq<Case>, nextId: nat) {
    forall c: Case {:trigger IdOk(cs, inbox, nextId, c)} :: IdOk(cs, inbox, nextId, c)
  }

  lemma SubscribeKeeps(cs: seq<Case>, inbox: seq<Case>, waiting: multiset<Chan>, live: multiset<Chan>, nextId: nat,
                       channel: Chan)
    requires CountsOk(cs, inbox, waiting, live) && IdsOk(cs, inbox, nextId)
    ensures CountsOk(cs, inbox + [Sub(nextId, channel)], waiting, live[channel := live[channel] + 1])
    ensures IdsOk(cs, inbox + [Sub(nextId, channel)], nextId + 1)
  {
    var cas := Sub(nextId, channel);
    var inbox', live', next := inbox + [cas], live[channel := live[channel] + 1], nextId + 1;
    forall ch: Chan
      ensures CountOk(cs, inbox', waiting, live', ch)
    {
      assert CountOk(cs, inbox, waiting, live, ch);
      CountConcat(inbox, [cas], ch);
      CountOne(cas, ch);
    }
    forall c: Case
      ensures IdOk(cs, inbox', next, c)
    {
      assert IdOk(cs, inbox, nextId, c);
      assert multiset(inbox') == multiset(inbox) + multiset{cas};
    }
  }

  lemma InboxRemovalKeeps(cs: seq<Case>, inbox: seq<Case>, waiting: multiset<Chan>, live: multiset<Chan>, nextId: nat,
                          channel: Chan, index: nat)
    requires CountsOk(cs, inbox, waiting, live) && IdsOk(cs, inbox, nextId)
    requires index < |inbox| && IsFor(inbox[index], channel)
    ensures live[channel] > 0
    ensures CountsOk(cs, Delete(inbox, index), waiting, live[channel := live[channel] - 1])
    ensures IdsOk(cs, Delete(inbox, index), nextId)
  {
    assert CountOk(cs, inbox, waiting, live, channel);
    CountDelete(inbox, index, channel);
    var inbox', live' := Delete(inbox, index), live[channel := live[channel] - 1];
    forall ch: Chan
      ensures CountOk(cs, inbox', waiting, live', ch)
    {
      assert CountOk(cs, inbox, waiting, live, ch);
      CountDelete(inbox, index, ch);
    }
    forall c: Case
      ensures IdOk(cs, inbox', nextId, c)
    {
      assert IdOk(cs, inbox, nextId, c);
      DeleteTakesOne(inbox, index);
    }
  }

  /** A live subscription whose channel is not in the inbox is in sendCases, besides those others wait for. */
  lemma WaitingKeeps(cs: seq<Case>, inbox: seq<Case>, waiting: multiset<Chan>, live: multiset<Chan>, channel: Chan)
    requires CountsOk(cs, inbox, waiting, live) && Count(inbox, channel) == 0 && waiting[channel] < live[channel]
    ensures CountsOk(cs, inbox, waiting[channel := waiting[channel] + 1], live)
  {
    var waiting' := waiting[channel := waiting[channel] + 1];
    forall ch: Chan
      ensures CountOk(cs, inbox, waiting', live, ch)
    {
      assert CountOk(cs, inbox, waiting, live, ch);
    }
  }

  lemma ServeKeeps(cs: seq<Case>, inbox: seq<Case>, waiting: multiset<Chan>, live: multiset<Chan>, nextId: nat,
                   channel: Chan, index: nat)
    requires CountsOk(cs, inbox, waiting, live) && IdsOk(cs, inbox, nextId) && waiting[channel] > 0
    requires index < |cs| && IsFor(cs[index], channel)
    ensures live[channel] > 0
    ensures CountsOk(Delete(cs, index), inbox, waiting[channel := waiting[channel] - 1],
                     live[channel := live[channel] - 1])
    ensures IdsOk(Delete(cs, index), inbox, nextId)
  {
    assert CountOk(cs, inbox, waiting, live, channel);
    var cs', waiting', live' :=
          Delete(cs, index), waiting[channel := waiting[channel] - 1], live[channel := live[channel] - 1];
    forall ch: Chan
      ensures CountOk(cs', inbox, waiting', live', ch)
    {
      assert CountOk(cs, inbox, waiting, live, ch);
      CountDelete(cs, index, ch);
    }
    forall c: Case
      ensures IdOk(cs', inbox, nextId, c)
    {
      assert IdOk(cs, inbox, nextId, c);
      DeleteTakesOne(cs, index);
    }
  }

  lemma SwapKeeps(cs: seq<Case>, inbox: seq<Case>, waiting: multiset<Chan>, live: multiset<Chan>, nextId: nat, i: nat,
                  j: nat)
    requires CountsOk(cs, inbox, waiting, live) && IdsOk(cs, inbox, nextId) && i < |cs| && j < |cs|
    ensures CountsOk(Swapped(cs, i, j), inbox, waiting, live) && IdsOk(Swapped(cs, i, j), inbox, nextId)
  {
    var cs' := Swapped(cs, i, j);
    forall ch: Chan
      ensures CountOk(cs', inbox, waiting, live, ch)
    {
      assert CountOk(cs, inbox, waiting, live, ch);
      SwapKeepsCount(cs, i, j, ch);
    }
    SwapKeepsAll(cs, i, j);
    forall c: Case
      ensures IdOk(cs', inbox, nextId, c)
    {
      assert IdOk(cs, inbox, nextId, c);
    }
  }

  lemma MergeKeeps(cs: seq<Case>, inbox: seq<Case>, waiting: multiset<Chan>, live: multiset<Chan>, nextId: nat)
    requires CountsOk(cs, inbox, waiting, live) && IdsOk(cs, inbox, nextId)
    ensures CountsOk(cs + inbox, [], waiting, live) && IdsOk(cs + inbox, [], nextId)
  {
    var cs' := cs + inbox;
    forall ch: Chan
      ensures CountOk(cs', [], waiting, live, ch)
    {
      assert CountOk(cs, inbox, waiting, live, ch);
      CountConcat(cs, inbox, ch);
    }
    forall c: Case
      ensures IdOk(cs', [], nextId, c)
    {
      assert IdOk(cs, inbox, nextId, c);
      assert multiset(cs') == multiset(cs) + multiset(inbox);
    }
  }

  // ---------- Removal requests ----------

  /** What has been removed since is what requests were waiting for then, or came since, and wait no more. */
  ghost predicate OwesOk(waiting0: multiset<Chan>, requested0: multiset<Chan>, waiting: multiset<Chan>,
                         requested: multiset<Chan>,
                         dropped: seq<Case>, left: seq<Case>, channel: Chan) {
    Count(dropped, channel) + Count(left, channel) + waiting[channel] + requested0[channel]
      == waiting0[channel] + requested[channel]
  }

  ghost predicate Owes(waiting0: multiset<Chan>, requested0: multiset<Chan>, waiting: multiset<Chan>,
                       requested: multiset<Chan>,
                       dropped: seq<Case>, left: seq<Case>) {
    forall channel: Chan {:trigger OwesOk(waiting0, requested0, waiting, requested, dropped, left, channel)} ::
      OwesOk(waiting0, requested0, waiting, requested, dropped, left, channel)
  }

  lemma OwesServed(waiting0: multiset<Chan>, requested0: multiset<Chan>, waiting: multiset<Chan>,
                   requested: multiset<Chan>,
                   dropped: seq<Case>, left: seq<Case>, c: Case, before: bool)
    requires Owes(waiting0, requested0, waiting, requested, dropped, left) && c.Sub? && waiting[c.channel] > 0
    ensures var w := waiting[c.channel := waiting[c.channel] - 1];
            if before then Owes(waiting0, requested0, w, requested, dropped + [c], left)
            else Owes(waiting0, requested0, w, requested, dropped, left + [c])
  {
    var w := waiting[c.channel := waiting[c.channel] - 1];
    var dropped' := if before then dropped + [c] else dropped;
    var left' := if before then left else left + [c];
    forall ch: Chan
      ensures OwesOk(waiting0, requested0, w, requested, dropped', left', ch)
    {
      assert OwesOk(waiting0, requested0, waiting, requested, dropped, left, ch);
      CountConcat(dropped, [c], ch);
      CountConcat(left, [c], ch);
      CountOne(c, ch);
    }
  }

  lemma OwesRequested(waiting0: multiset<Chan>, requested0: multiset<Chan>, waiting: multiset<Chan>,
                      requested: multiset<Chan>,
                      dropped: seq<Case>, left: seq<Case>, channel: Chan)
    requires Owes(waiting0, requested0, waiting, requested, dropped, left)
    ensures Owes(waiting0, requested0, waiting[channel := waiting[channel] + 1],
                 requested[channel := requested[channel] + 1], dropped, left)
  {
    var w, r := waiting[channel := waiting[channel] + 1], requested[channel := requested[channel] + 1];
    forall ch: Chan
      ensures OwesOk(waiting0, requested0, w, r, dropped, left, ch)
    {
      assert OwesOk(waiting0, requested0, waiting, requested, dropped, left, ch);
    }
  }

  // ---------- The feed ----------

  /** The active cases before i do not accept, and those delivered to since do. */
  ghost predicate Tried(accepts: Case -> bool, cs: seq<Case>, n: nat, i: nat, soFar: seq<Case>, delivered: seq<Case>) {
    && i <= n <= |cs| && (forall k | 1 <= k < i :: !accepts(cs[k]))
    && soFar <= delivered && forall k | |soFar| <= k < |delivered| :: accepts(delivered[k])
  }

  class Feed {
    var sendCases: seq<Case>
    var inbox: seq<Case>
    var nextId: nat
    // channels of the subscriptions that are not yet removed
    var live: multiset<Chan>
    // of these, the ones whose removal was not found in the inbox and waits for Send or the send lock
    var waiting: multiset<Chan>
    // all removals that ever had to wait
    ghost var requested: multiset<Chan>

    ghost predicate Valid()
      reads this
    {
      && Headed(sendCases)
      && (forall i | 0 <= i < |inbox| :: inbox[i].Sub?)
      && CountsOk(sendCases, inbox, waiting, live)
      && IdsOk(sendCases, inbox, nextId)
    }

    constructor ()
      ensures Valid() && sendCases == [RemoveSub] && inbox == [] && live == waiting == multiset{}
    {
      sendCases, inbox, nextId, live, waiting := [RemoveSub], [], 0, multiset{}, multiset{};
      requested := multiset{};
      new;
      forall ch: Chan
        ensures CountOk(sendCases, inbox, waiting, live, ch)
      {
        CountOne(RemoveSub, ch);
      }
      forall c: Case
        ensures IdOk(sendCases, inbox, nextId, c)
      {
      }
    }

    method Subscribe(channel: Chan)
      requires Valid()
      modifies this`inbox, this`nextId, this`live
      ensures Valid() && live == old(live)[channel := old(live)[channel] + 1]
      ensures inbox == old(inbox) + [Sub(old(nextId), channel)] && nextId == old(nextId) + 1
    {
      SubscribeKeeps(sendCases, inbox, waiting, live, nextId, channel);
      inbox := inbox + [Sub(nextId, channel)];
      nextId := nextId + 1;
      live := live[channel := live[channel] + 1];
    }

    /** The first half of remove, for a subscription that is live and not being removed yet. */
    method BeginRemove(channel: Chan)
      requires Valid() && waiting[channel] < live[channel]
      modifies this`inbox, this`waiting, this`live, this`requested
      ensures Valid()
      ensures if Count(old(inbox), channel) > 0
              then
                && live == old(live)[channel := old(live)[channel] - 1] && waiting == old(waiting)
                && requested == old(requested)
                && exists i :: 0 <= i < |old(inbox)| && IsFor(old(inbox)[i], channel) && inbox == Delete(old(inbox), i)
              else
                && live == old(live) && inbox == old(inbox)
                && waiting == old(waiting)[channel := old(waiting)[channel] + 1]
                && requested == old(requested)[channel := old(requested)[channel] + 1]
    {
      var index := Find(inbox, channel);
      if index != -1 {
        InboxRemovalKeeps(sendCases, inbox, waiting, live, nextId, channel, index);
        inbox := Delete(inbox, index);
        live := live[channel := live[channel] - 1];
      } else {
        WaitingKeeps(sendCases, inbox, waiting, live, channel);
        waiting := waiting[channel := waiting[channel] + 1];
        requested := requested[channel := requested[channel] + 1];
      }
    }

    /**
      A removal that waits is served, by Send or with the send lock: its case goes from
      sendCases. It is always found, and never the removeSub case.
     */
    method Serve(channel: Chan) returns (index: int)
      requires Valid() && channel in waiting
      modifies this`sendCases, this`waiting, this`live
      ensures Valid()
      ensures 0 < index < |old(sendCases)| && IsFor(old(sendCases)[index], channel)
      ensures sendCases == Delete(old(sendCases), index)
      ensures waiting == old(waiting)[channel := old(waiting)[channel] - 1]
      ensures old(live)[channel] > 0 && live == old(live)[channel := old(live)[channel] - 1]
    {
      index := Find(sendCases, channel);
      assert CountOk(sendCases, inbox, waiting, live, channel);
      ServeKeeps(sendCases, inbox, waiting, live, nextId, channel, index);
      sendCases := Delete(sendCases, index);
      waiting := waiting[channel := waiting[channel] - 1];
      live := live[channel := live[channel] - 1];
    }

    /** What others may do while Send holds the lock: any number of times subscribe, and ask for removals. */
    method Meanwhile(ghost waiting0: multiset<Chan>, ghost requested0: multiset<Chan>, ghost dropped: seq<Case>,
                     ghost left: seq<Case>)
      requires Valid() && Owes(waiting0, requested0, waiting, requested, dropped, left)
      modifies this`inbox, this`nextId, this`waiting, this`live, this`requested
      ensures Valid() && Owes(waiting0, requested0, waiting, requested, dropped, left)
    {
      var times: int := *;
      while times > 0
        invariant Valid() && Owes(waiting0, requested0, waiting, requested, dropped, left)
        invariant sendCases == old(sendCases)
      {
        var channel: Chan := *;
        var subscribes: bool := *;
        if subscribes {
          Subscribe(channel);
        } else if waiting[channel] < live[channel] {
          OwesRequested(waiting0, requested0, waiting, requested, dropped, left, channel);
          BeginRemove(channel);
        }
        times := times - 1;
      }
    }

    /** deactivate: the case leaves the active part, the first n cases. */
    method Deactivate(n: nat, i: nat, ghost start: multiset<Case>, ghost delivered: seq<Case>, ghost dropped: seq<Case>,
                      ghost left: seq<Case>)
        returns (cas: Case)
      requires Valid() && 1 <= i < n && Accounted(start, sendCases, n, delivered, dropped, left)
      modifies this`sendCases
      ensures Valid() && |sendCases| == |old(sendCases)|
      ensures cas == old(sendCases)[i] && Accounted(start, sendCases, n - 1, delivered + [cas], dropped, left)
      ensures n <= |sendCases| && sendCases == Swapped(old(sendCases), i, n - 1)
    {
      cas := sendCases[i];
      DeactivateAccounts(start, sendCases, n, delivered, dropped, left, i);
      SwapKeeps(sendCases, inbox, waiting, live, nextId, i, n - 1);
      sendCases := Swapped(sendCases, i, n - 1);
    }

    /** The fast path: tries each active case without blocking; those that accept are delivered to, and no others. */
    method TryAll(accepts: Case -> bool, active: nat, sentSoFar: nat, ghost soFar: seq<Case>,
                  ghost start: multiset<Case>, ghost dropped: seq<Case>, ghost left: seq<Case>)
        returns (n: nat, nsent: nat, ghost delivered: seq<Case>)
      requires sentSoFar == |soFar|
      requires Valid() && Accounted(start, sendCases, active, soFar, dropped, left)
      modifies this`sendCases
      ensures Valid() && Accounted(start, sendCases, n, delivered, dropped, left)
      ensures n <= active && |sendCases| == |old(sendCases)| && nsent == |delivered|
      ensures Tried(accepts, sendCases, n, n, soFar, delivered)
    {
      n, nsent, delivered := active, sentSoFar, soFar;
      var i := 1;
      while i < n
        invariant 1 <= i && n <= active && |sendCases| == |old(sendCases)| && nsent == |delivered|
        invariant Tried(accepts, sendCases, n, i, soFar, delivered)
        invariant Valid() && Accounted(start, sendCases, n, delivered, dropped, left)
        decreases n - i
      {
        n, i, nsent, delivered := TryAt(accepts, n, i, nsent, soFar, start, delivered, dropped, left);
      }
    }

    /** Tries one case. */
    method TryAt(accepts: Case -> bool, n: nat, i: nat, nsent: nat, ghost soFar: seq<Case>, ghost start: multiset<Case>,
                 ghost delivered: seq<Case>, ghost dropped: seq<Case>, ghost left: seq<Case>)
        returns (n': nat, i': nat, nsent': nat, ghost more: seq<Case>)
      requires Valid() && 1 <= i < n && Accounted(start, sendCases, n, delivered, dropped, left)
      requires Tried(accepts, sendCases, n, i, soFar, delivered) && nsent == |delivered|
      modifies this`sendCases
      ensures Valid() && Accounted(start, sendCases, n', more, dropped, left)
      ensures |sendCases| == |old(sendCases)| && nsent' == |more| && n' <= n && n' - i' < n - i && 1 <= i'
      ensures Tried(accepts, sendCases, n', i', soFar, more)
    {
      if accepts(sendCases[i]) {
        more := Accept(accepts, n, i, soFar, start, delivered, dropped, left);
        n', i', nsent' := n - 1, i, nsent + 1;
      } else {
        n', i', nsent', more := n, i + 1, nsent, delivered;
      }
    }

    /** An active case accepts. */
    method Accept(ghost accepts: Case -> bool, n: nat, i: nat, ghost soFar: seq<Case>, ghost start: multiset<Case>,
                  ghost delivered: seq<Case>, ghost dropped: seq<Case>, ghost left: seq<Case>)
        returns (ghost more: seq<Case>)
      requires Valid() && 1 <= i < n && Accounted(start, sendCases, n, delivered, dropped, left)
      requires Tried(accepts, sendCases, n, i, soFar, delivered) && accepts(sendCases[i])
      modifies this`sendCases
      ensures Valid() && |sendCases| == |old(sendCases)| && |more| == |delivered| + 1
      ensures Accounted(start, sendCases, n - 1, more, dropped, left)
      ensures Tried(accepts, sendCases, n - 1, i, soFar, more)
    {
      var cas := Deactivate(n, i, start, delivered, dropped, left);
      more := delivered + [cas];
      assert forall k | 1 <= k < i :: sendCases[k] == old(sendCases)[k];
    }

    /** Waits for a receiver or a removal request: any active case, or any request, may come next. */
    method Select(active: nat, sentSoFar: nat, ghost soFar: seq<Case>, ghost start: multiset<Case>,
                  ghost droppedSoFar: seq<Case>, ghost leftSoFar: seq<Case>,
                  ghost waiting0: multiset<Chan>, ghost requested0: multiset<Chan>)
        returns (n: nat, nsent: nat, ghost delivered: seq<Case>, ghost dropped: seq<Case>, ghost left: seq<Case>)
      requires sentSoFar == |soFar|
      requires Valid() && 1 < active && Accounted(start, sendCases, active, soFar, droppedSoFar, leftSoFar)
      requires Owes(waiting0, requested0, waiting, requested, droppedSoFar, leftSoFar)
      modifies this`sendCases, this`waiting, this`live
      ensures Valid() && Accounted(start, sendCases, n, delivered, dropped, left)
      ensures Owes(waiting0, requested0, waiting, requested, dropped, left)
      ensures nsent == |delivered| && n <= active && |sendCases| <= |old(sendCases)|
      ensures n + |sendCases| < active + |old(sendCases)|
    {
      n, nsent, delivered, dropped, left := active, sentSoFar, soFar, droppedSoFar, leftSoFar;
      var chosen :| 0 <= chosen < n && (chosen == 0 ==> waiting != multiset{});
      if chosen == 0 {
        var channel :| channel in waiting;
        ghost var cases := sendCases;
        var index := Serve(channel);
        OwesServed(waiting0, requested0, old(waiting), requested, dropped, left, cases[index], index < n);
        if index < n {
          RemoveActiveAccounts(start, cases, n, delivered, dropped, left, index);
          dropped := dropped + [cases[index]];
          n := n - 1;
        } else {
          RemoveServedAccounts(start, cases, n, delivered, dropped, left, index);
          left := left + [cases[index]];
        }
      } else {
        var cas := Deactivate(n, chosen, start, delivered, dropped, left);
        nsent, delivered := nsent + 1, delivered + [cas];
        n := n - 1;
      }
    }

    /**
      Send, with others acting whenever it waits. Of the cases subscribed at its start, each is delivered to
      exactly once, or was dropped on request before its turn; the ones still subscribed at the end have
      all been delivered to. Which receivers are ready in a round is given.
     */
    method Send(accepts: nat -> Case -> bool)
        returns (nsent: nat, ghost delivered: seq<Case>, ghost start: multiset<Case>, ghost dropped: seq<Case>,
                 ghost left: seq<Case>)
      requires Valid()
      modifies this
      ensures Valid()
      ensures start == multiset(old(sendCases)[1..]) + multiset(old(inbox))
      ensures nsent == |delivered|
      ensures start == multiset(delivered) + multiset(dropped)
      ensures multiset(delivered) == multiset(sendCases[1..]) + multiset(left)
      ensures Owes(old(waiting), old(requested), waiting, requested, dropped, left)
    {
      nsent, delivered, dropped, left := 0, [], [], [];
      MergeKeeps(sendCases, inbox, waiting, live, nextId);
      assert (sendCases + inbox)[1..] == sendCases[1..] + inbox;
      sendCases := sendCases + inbox;
      inbox := [];
      start := multiset(sendCases[1..]);
      var n, round := |sendCases|, 0;
      assert sendCases[n..] == [] && sendCases[1..n] == sendCases[1..];
      while true
        invariant Valid() && Accounted(start, sendCases, n, delivered, dropped, left)
        invariant nsent == |delivered| && Owes(old(waiting), old(requested), waiting, requested, dropped, left)
        decreases |sendCases| + n
      {
        n, nsent, delivered := TryAll(accepts(round), n, nsent, delivered, start, dropped, left);
        if n == 1 {
          break;
        }
        Meanwhile(old(waiting), old(requested), dropped, left);
        n, nsent, delivered, dropped, left :=
          Select(n, nsent, delivered, start, dropped, left, old(waiting), old(requested));
        round := round + 1;
      }
      assert sendCases[1..1] == [];
    }
  }

  /**
    A subscription to a channel for which no removal was waiting or came during the Send is delivered to
    exactly once and remains subscribed.
   */
  lemma UntouchedIsDelivered(start: multiset<Case>, cs: seq<Case>, delivered: seq<Case>, dropped: seq<Case>,
                             left: seq<Case>,
                             waiting0: multiset<Chan>, requested0: multiset<Chan>, waiting: multiset<Chan>,
                             requested: multiset<Chan>, c: Case)
    requires Accounted(start, cs, 1, delivered, dropped, left)
    requires Owes(waiting0, requested0, waiting, requested, dropped, left)
    requires c.Sub? && start[c] == 1 && waiting0[c.channel] == 0 && requested[c.channel] == requested0[c.channel]
    ensures multiset(delivered)[c] == 1 && multiset(cs[1..])[c] == 1
  {
    assert OwesOk(waiting0, requested0, waiting, requested, dropped, left, c.channel);
    if c in dropped {
      CountSome(dropped, c);
    }
    if c in left {
      CountSome(left, c);
    }
  }

  lemma CountSome(cs: seq<Case>, c: Case)
    requires c in cs && c.Sub?
    ensures Count(cs, c.channel) > 0
  {
    var i :| 0 <= i < |cs| && cs[i] == c;
    CountDelete(cs, i, c.channel);
  }
}
