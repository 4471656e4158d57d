/**
 The optimistic chat merge of apps/chat-sim/src/usePolling.js.

 A local message has no `createdAt`. A delivered server message claims the first local message
 with the same text and sender, or is appended if its timestamp is not in the list yet.
 Timestamps are kept as numbers; an id is a local one or the timestamp of a server message.
 */
module ChatMerge {
  import opened Prelude
  import opened StableSort

  datatype Sender = User | Bot

  datatype Id = Local(name: string) | Stamp(at: nat)

  datatype Message = Message(id: Id, text: string, sender: Sender, createdAt: Option<nat>)

  /** A message as the server sends it; `sender` is already read off the direction. */
  datatype Delivery = Delivery(text: string, sender: Sender, createdAt: nat)

  /** What a twin is matched by. */
  type Key = (string, Sender)

  function KeyOf(m: Message): Key {
    (m.text, m.sender)
  }

  function DeliveryKey(d: Delivery): Key {
    (d.text, d.sender)
  }

  /** A local message that no server message has claimed, with this text and sender. */
  predicate Unclaimed(m: Message, k: Key) {
    KeyOf(m) == k && m.createdAt.None?
  }

  predicate Acknowledged(m: Message, k: Key) {
    KeyOf(m) == k && m.createdAt.Some?
  }

  /** `findIndex` of the first unclaimed twin, or the length of the list. */
  function Twin(list: seq<Message>, k: Key): (i: nat)
    ensures i <= |list| && (i < |list| ==> Unclaimed(list[i], k)) && forall j :: 0 <= j < i ==> !Unclaimed(list[j], k)
  {
    if list == [] || Unclaimed(list[0], k) then 0 else 1 + Twin(list[1..], k)
  }

  predicate Known(list: seq<Message>, t: nat) {
    exists i :: 0 <= i < |list| && (list[i].id == Stamp(t) || list[i].createdAt == Some(t))
  }

  function MergeOne(list: seq<Message>, d: Delivery): seq<Message> {
    var i := Twin(list, DeliveryKey(d));
    if i < |list| then list[i := list[i].(id := Stamp(d.createdAt), createdAt := Some(d.createdAt))]
    else if Known(list, d.createdAt) then list
    else list + [Message(Stamp(d.createdAt), d.text, d.sender, Some(d.createdAt))]
  }

  function MergeSorted(list: seq<Message>, sorted: seq<Delivery>): seq<Message>
    decreases |sorted|
  {
    if sorted == [] then list else MergeSorted(MergeOne(list, sorted[0]), sorted[1..])
  }

  function Earlier(): (Delivery, Delivery) -> bool {
    (a: Delivery, b: Delivery) => a.createdAt <= b.createdAt
  }

  /** `[...newMsgs].sort((a, b) => a.createdAt - b.createdAt)`. */
  function InTimeOrder(batch: seq<Delivery>): seq<Delivery> {
    Sort(Earlier(), batch)
  }

  function Merge(list: seq<Message>, batch: seq<Delivery>): seq<Message> {
    MergeSorted(list, InTimeOrder(batch))
  }

  // ----- Existing messages stay where they are

  /** Same place, same text and sender; a message only changes by getting its timestamp, as its id too. */
  ghost predicate Extends(before: seq<Message>, after: seq<Message>) {
    && |before| <= |after|
    && forall i :: 0 <= i < |before| ==>
         && KeyOf(after[i]) == KeyOf(before[i])
         && (after[i] == before[i]
             || (before[i].createdAt.None? && after[i].createdAt.Some? && after[i].id == Stamp(after[i].createdAt.value)))
  }

  lemma {:induction false} MergeExtends(list: seq<Message>, sorted: seq<Delivery>)
    ensures Extends(list, MergeSorted(list, sorted))
    decreases |sorted|
  {
    if sorted != [] {
      MergeExtends(MergeOne(list, sorted[0]), sorted[1..]);
    }
  }

  // ----- Timestamps stay distinct

  ghost predicate DistinctStamps(list: seq<Message>) {
    forall i, j :: 0 <= i < j < |list| && list[i].createdAt.Some? ==> list[i].createdAt != list[j].createdAt
  }

  ghost predicate DistinctDeliveries(batch: seq<Delivery>) {
    forall i, j :: 0 <= i < j < |batch| ==> batch[i].createdAt != batch[j].createdAt
  }

  ghost predicate Fresh(list: seq<Message>, batch: seq<Delivery>) {
    forall d :: d in batch ==> !Known(list, d.createdAt)
  }

  /** Merging one fresh delivery makes exactly its timestamp known. */
  lemma OneBecomesKnown(list: seq<Message>, d: Delivery, t: nat)
    requires !Known(list, d.createdAt)
    ensures Known(MergeOne(list, d), t) ==> t == d.createdAt || Known(list, t)
  {
    var after := MergeOne(list, d);
    if Known(after, t) && t != d.createdAt {
      var i :| 0 <= i < |after| && (after[i].id == Stamp(t) || after[i].createdAt == Some(t));
      assert i < |list|;
    }
  }

  lemma FreshNext(list: seq<Message>, sorted: seq<Delivery>)
    requires sorted != [] && Fresh(list, sorted) && DistinctDeliveries(sorted)
    ensures Fresh(MergeOne(list, sorted[0]), sorted[1..]) && DistinctDeliveries(sorted[1..])
    ensures !Known(list, sorted[0].createdAt)
  {
    assert sorted[0] in sorted;
    forall d | d in sorted[1..]
      ensures !Known(MergeOne(list, sorted[0]), d.createdAt)
    {
      var i :| 0 <= i < |sorted[1..]| && sorted[1..][i] == d;
      assert sorted[i + 1] == d && d in sorted;
      OneBecomesKnown(list, sorted[0], d.createdAt);
    }
  }

  lemma {:induction false} MergeKeepsStampsDistinct(list: seq<Message>, sorted: seq<Delivery>)
    requires DistinctStamps(list) && Fresh(list, sorted) && DistinctDeliveries(sorted)
    ensures DistinctStamps(MergeSorted(list, sorted))
    decreases |sorted|
  {
    if sorted != [] {
      FreshNext(list, sorted);
      assert DistinctStamps(MergeOne(list, sorted[0])) by {
        assert forall i :: 0 <= i < |list| ==> list[i].createdAt != Some(sorted[0].createdAt);
      }
      MergeKeepsStampsDistinct(MergeOne(list, sorted[0]), sorted[1..]);
    }
  }

  // ----- Counts

  function CountUnclaimed(list: seq<Message>, k: Key): nat {
    if list == [] then 0 else CountUnclaimed(list[..|list| - 1], k) + if Unclaimed(list[|list| - 1], k) then 1 else 0
  }

  function CountAcknowledged(list: seq<Message>, k: Key): nat {
    if list == [] then 0 else CountAcknowledged(list[..|list| - 1], k) + if Acknowledged(list[|list| - 1], k) then 1 else 0
  }

  function CountDelivered(batch: seq<Delivery>, k: Key): nat {
    if batch == [] then 0 else (if DeliveryKey(batch[0]) == k then 1 else 0) + CountDelivered(batch[1..], k)
  }

  function Max(a: nat, b: nat): nat {
    if a >= b then a else b
  }

  function Monus(a: nat, b: nat): nat {
    if a >= b then a - b else 0
  }

  lemma {:induction false} CountsUpdate(list: seq<Message>, i: nat, m: Message, k: Key)
    requires i < |list|
    ensures CountUnclaimed(list[i := m], k) + (if Unclaimed(list[i], k) then 1 else 0)
         == CountUnclaimed(list, k) + if Unclaimed(m, k) then 1 else 0
    ensures CountAcknowledged(list[i := m], k) + (if Acknowledged(list[i], k) then 1 else 0)
         == CountAcknowledged(list, k) + if Acknowledged(m, k) then 1 else 0
  {
    var n := |list| - 1;
    if i < n {
      assert list[i := m][..n] == list[..n][i := m];
      CountsUpdate(list[..n], i, m, k);
    } else {
      assert list[i := m][..n] == list[..n];
    }
  }

  lemma {:induction false} NoneUnclaimed(list: seq<Message>, k: Key)
    ensures CountUnclaimed(list, k) == 0 <==> Twin(list, k) == |list|
  {
    if list != [] {
      var n := |list| - 1;
      NoneUnclaimed(list[..n], k);
      assert forall j :: 0 <= j < n ==> list[..n][j] == list[j];
    }
  }

  /** Merging one delivery claims one unclaimed twin, if there is one, known timestamp or not. */
  lemma OneUnclaimed(list: seq<Message>, d: Delivery, k: Key)
    ensures CountUnclaimed(MergeOne(list, d), k) == Monus(CountUnclaimed(list, k), if DeliveryKey(d) == k then 1 else 0)
  {
    var i := Twin(list, DeliveryKey(d));
    var after := MergeOne(list, d);
    NoneUnclaimed(list, DeliveryKey(d));
    if i < |list| {
      CountsUpdate(list, i, list[i].(id := Stamp(d.createdAt), createdAt := Some(d.createdAt)), k);
    } else if after != list {
      assert after[..|after| - 1] == list;
    }
  }

  lemma OneAcknowledged(list: seq<Message>, d: Delivery, k: Key)
    requires !Known(list, d.createdAt)
    ensures CountAcknowledged(MergeOne(list, d), k) == CountAcknowledged(list, k) + if DeliveryKey(d) == k then 1 else 0
  {
    var i := Twin(list, DeliveryKey(d));
    if i < |list| {
      CountsUpdate(list, i, list[i].(id := Stamp(d.createdAt), createdAt := Some(d.createdAt)), k);
    } else {
      var after := MergeOne(list, d);
      assert after[..|after| - 1] == list;
    }
  }

  /** Whatever is delivered, unclaimed messages shrink by as many as there are to claim. */
  lemma {:induction false} MergeClaims(list: seq<Message>, sorted: seq<Delivery>, k: Key)
    ensures CountUnclaimed(MergeSorted(list, sorted), k) == Monus(CountUnclaimed(list, k), CountDelivered(sorted, k))
    decreases |sorted|
  {
    if sorted != [] {
      OneUnclaimed(list, sorted[0], k);
      MergeClaims(MergeOne(list, sorted[0]), sorted[1..], k);
    }
  }

  /**
   For fresh, distinct deliveries the acknowledged messages of each text and sender grow by the
   number delivered and the unclaimed ones shrink by as many as there are to claim.
   */
  lemma {:induction false} MergeCounts(list: seq<Message>, sorted: seq<Delivery>, k: Key)
    requires Fresh(list, sorted) && DistinctDeliveries(sorted)
    ensures CountAcknowledged(MergeSorted(list, sorted), k) == CountAcknowledged(list, k) + CountDelivered(sorted, k)
    ensures CountUnclaimed(MergeSorted(list, sorted), k) == Monus(CountUnclaimed(list, k), CountDelivered(sorted, k))
    decreases |sorted|
  {
    MergeClaims(list, sorted, k);
    if sorted != [] {
      FreshNext(list, sorted);
      OneAcknowledged(list, sorted[0], k);
      MergeCounts(MergeOne(list, sorted[0]), sorted[1..], k);
    }
  }

  // ----- What becomes of each delivery, fresh or not

  /** A timestamp id only stands on the message with that timestamp. */
  ghost predicate IdsMatch(list: seq<Message>) {
    forall i :: 0 <= i < |list| && list[i].id.Stamp? ==> list[i].createdAt == Some(list[i].id.at)
  }

  /** The server message that an acknowledged message stands for. */
  function StampOf(m: Message): multiset<Delivery> {
    if m.createdAt.Some? then multiset{Delivery(m.text, m.sender, m.createdAt.value)} else multiset{}
  }

  function Stamped(list: seq<Message>): multiset<Delivery> {
    if list == [] then multiset{} else Stamped(list[..|list| - 1]) + StampOf(list[|list| - 1])
  }

  /** Neither branch of the loop body does anything. */
  predicate Drops(list: seq<Message>, d: Delivery) {
    Twin(list, DeliveryKey(d)) == |list| && Known(list, d.createdAt)
  }

  function LostFirst(list: seq<Message>, d: Delivery): multiset<Delivery> {
    if Drops(list, d) then multiset{d} else multiset{}
  }

  function Dropped(list: seq<Message>, sorted: seq<Delivery>): seq<Delivery>
    decreases |sorted|
  {
    if sorted == [] then []
    else (if Drops(list, sorted[0]) then [sorted[0]] else []) + Dropped(MergeOne(list, sorted[0]), sorted[1..])
  }

  /**
   The list has more unclaimed twins of the `j`-th delivery than deliveries come before it to claim
   them, or its timestamp is neither in the list nor on an earlier delivery.
   */
  ghost predicate Kept(list: seq<Message>, sorted: seq<Delivery>, j: nat)
    requires j < |sorted|
  {
    var d := sorted[j];
    || CountDelivered(sorted[..j], DeliveryKey(d)) < CountUnclaimed(list, DeliveryKey(d))
    || (!Known(list, d.createdAt) && forall i :: 0 <= i < j ==> sorted[i].createdAt != d.createdAt)
  }

  lemma {:induction false} StampedUpdate(list: seq<Message>, i: nat, m: Message)
    requires i < |list| && StampOf(list[i]) == multiset{}
    ensures Stamped(list[i := m]) == Stamped(list) + StampOf(m)
  {
    hide StampOf;
    var n := |list| - 1;
    if i < n {
      assert list[i := m][..n] == list[..n][i := m];
      StampedUpdate(list[..n], i, m);
      Commute(Stamped(list[..n]), StampOf(m), StampOf(list[n]));
    } else {
      assert list[i := m][..n] == list[..n];
    }
  }

  lemma Commute(a: multiset<Delivery>, b: multiset<Delivery>, c: multiset<Delivery>)
    ensures (a + b) + c == (a + c) + b
  {
  }

  lemma OneStamped(list: seq<Message>, d: Delivery)
    ensures Stamped(MergeOne(list, d)) + LostFirst(list, d) == Stamped(list) + multiset{d}
  {
    var i := Twin(list, DeliveryKey(d));
    var after := MergeOne(list, d);
    if i < |list| {
      StampedUpdate(list, i, after[i]);
    } else if after != list {
      assert after[..|after| - 1] == list;
    }
  }

  lemma DroppedNext(list: seq<Message>, sorted: seq<Delivery>)
    requires sorted != []
    ensures multiset(Dropped(list, sorted)) == LostFirst(list, sorted[0]) + multiset(Dropped(MergeOne(list, sorted[0]), sorted[1..]))
    ensures multiset(sorted) == multiset{sorted[0]} + multiset(sorted[1..])
  {
    hide Drops, MergeOne;
    assert sorted == [sorted[0]] + sorted[1..];
  }

  lemma Balance(before: multiset<Delivery>, first: multiset<Delivery>, lost: multiset<Delivery>, next: multiset<Delivery>,
                rest: multiset<Delivery>, dropped: multiset<Delivery>, after: multiset<Delivery>)
    requires next + lost == before + first && after + dropped == next + rest
    ensures after + (lost + dropped) == before + (first + rest)
  {
    forall d
      ensures (after + (lost + dropped))[d] == (before + (first + rest))[d]
    {
      assert (next + lost)[d] == (before + first)[d] && (after + dropped)[d] == (next + rest)[d];
    }
  }

  /** Nothing is lost or made up: what is delivered either stands in the list with its timestamp or was dropped. */
  lemma {:induction false} MergeAccounts(list: seq<Message>, sorted: seq<Delivery>)
    ensures Stamped(MergeSorted(list, sorted)) + multiset(Dropped(list, sorted)) == Stamped(list) + multiset(sorted)
    decreases |sorted|
  {
    hide Stamped, MergeOne, Drops, LostFirst;
    if sorted == [] {
      assert MergeSorted(list, sorted) == list && Dropped(list, sorted) == [];
    } else {
      var d, rest := sorted[0], sorted[1..];
      var next := MergeOne(list, d);
      OneStamped(list, d);
      MergeAccounts(next, rest);
      DroppedNext(list, sorted);
      Balance(Stamped(list), multiset{d}, LostFirst(list, d), Stamped(next), multiset(rest), multiset(Dropped(next, rest)),
              Stamped(MergeSorted(next, rest)));
    }
  }

  /** Merging a delivery makes its timestamp known, and no other known or unknown. */
  lemma OneKnown(list: seq<Message>, d: Delivery, t: nat)
    requires IdsMatch(list)
    ensures Known(MergeOne(list, d), t) <==> Known(list, t) || t == d.createdAt
    ensures IdsMatch(MergeOne(list, d))
  {
    var i := Twin(list, DeliveryKey(d));
    var after := MergeOne(list, d);
    if Known(list, t) {
      var j :| 0 <= j < |list| && (list[j].id == Stamp(t) || list[j].createdAt == Some(t));
      assert after[j] == list[j];
    }
    if Known(after, t) {
      var j :| 0 <= j < |after| && (after[j].id == Stamp(t) || after[j].createdAt == Some(t));
      assert j < |list| && j != i ==> after[j] == list[j];
    }
    if after != list {
      assert after[i].createdAt == Some(d.createdAt);
    }
  }

  lemma {:induction false} MergeKeepsIds(list: seq<Message>, sorted: seq<Delivery>)
    requires IdsMatch(list)
    ensures IdsMatch(MergeSorted(list, sorted))
    decreases |sorted|
  {
    if sorted != [] {
      OneKnown(list, sorted[0], sorted[0].createdAt);
      MergeKeepsIds(MergeOne(list, sorted[0]), sorted[1..]);
    }
  }

  lemma KeptFirst(list: seq<Message>, sorted: seq<Delivery>)
    requires sorted != []
    ensures Kept(list, sorted, 0) <==> !Drops(list, sorted[0])
  {
    NoneUnclaimed(list, DeliveryKey(sorted[0]));
    assert sorted[..0] == [];
  }

  lemma KeptNext(list: seq<Message>, sorted: seq<Delivery>, j: nat)
    requires IdsMatch(list) && 0 < j < |sorted|
    ensures Kept(list, sorted, j) <==> Kept(MergeOne(list, sorted[0]), sorted[1..], j - 1)
  {
    var d, rest := sorted[j], sorted[1..];
    OneUnclaimed(list, sorted[0], DeliveryKey(d));
    OneKnown(list, sorted[0], d.createdAt);
    assert sorted[..j][0] == sorted[0] && sorted[..j][1..] == rest[..j - 1] && rest[j - 1] == d;
    hide MergeOne, Known, CountUnclaimed, IdsMatch;
    assert forall i :: 0 < i < j ==> sorted[i] == rest[i - 1];
    assert forall i :: 0 <= i < j - 1 ==> rest[i] == sorted[i + 1];
  }

  /** No delivery is dropped exactly when each one meets an unclaimed twin or a new timestamp. */
  lemma {:induction false} DroppedExactly(list: seq<Message>, sorted: seq<Delivery>)
    requires IdsMatch(list)
    ensures Dropped(list, sorted) == [] <==> forall j :: 0 <= j < |sorted| ==> Kept(list, sorted, j)
    decreases |sorted|
  {
    if sorted != [] {
      var next, rest := MergeOne(list, sorted[0]), sorted[1..];
      OneKnown(list, sorted[0], sorted[0].createdAt);
      DroppedExactly(next, rest);
      KeptFirst(list, sorted);
      forall j | 0 < j < |sorted|
        ensures Kept(list, sorted, j) <==> Kept(next, rest, j - 1)
      {
        KeptNext(list, sorted, j);
      }
      hide Kept, Drops, MergeOne, IdsMatch;
      assert forall j :: 0 <= j < |rest| ==> (Kept(next, rest, j) <==> Kept(list, sorted, j + 1)) by {
        forall j | 0 <= j < |rest|
          ensures Kept(next, rest, j) <==> Kept(list, sorted, j + 1)
        {
          assert Kept(list, sorted, j + 1) <==> Kept(next, rest, j + 1 - 1);
        }
      }
      if forall j :: 0 <= j < |rest| ==> Kept(next, rest, j) {
        forall j | 0 < j < |sorted|
          ensures Kept(list, sorted, j)
        {
          assert Kept(next, rest, j - 1);
        }
      }
    }
  }

  function Show(d: Delivery): Message {
    Message(Stamp(d.createdAt), d.text, d.sender, Some(d.createdAt))
  }

  lemma FirstIsShown(d: Delivery)
    ensures !Drops([], d) && MergeOne([], d) == [Show(d)]
  {
  }

  lemma SameTimeIsDropped(m: Message, d: Delivery)
    requires m.createdAt == Some(d.createdAt)
    ensures Drops([m], d) && MergeOne([m], d) == [m]
  {
    assert [m][1..] == [] && [m][0] == m;
  }

  /** With equal timestamps in the batch and no local twins, the second message is dropped. */
  lemma SecondIsDropped(first: Delivery, second: Delivery)
    requires first.createdAt == second.createdAt
    ensures InTimeOrder([first, second]) == [first, second]
    ensures Dropped([], [first, second]) == [second] && MergeSorted([], [first, second]) == [Show(first)]
  {
    StableSortIsUnique(Earlier(), [first, second], [first, second]);
    FirstIsShown(first);
    SameTimeIsDropped(Show(first), second);
    hide MergeOne, Drops, InTimeOrder, Show;
    assert [first, second][1..] == [second] && [second][1..] == [];
    assert MergeSorted([Show(first)], [second]) == MergeSorted([Show(first)], []);
    assert Dropped([], [first, second]) == [] + Dropped([Show(first)], [second]);
    assert Dropped([Show(first)], [second]) == [second] + Dropped([Show(first)], []);
  }

  // ----- Claims are in order

  /** The positions of the unclaimed twins, in list order. */
  function UnclaimedAt(list: seq<Message>, k: Key): seq<nat> {
    if list == [] then []
    else UnclaimedAt(list[..|list| - 1], k) + if Unclaimed(list[|list| - 1], k) then [(|list| - 1) as nat] else []
  }

  /** The timestamps delivered for this text and sender, in delivery order. */
  function StampsFor(sorted: seq<Delivery>, k: Key): seq<nat> {
    if sorted == [] then [] else (if DeliveryKey(sorted[0]) == k then [sorted[0].createdAt] else []) + StampsFor(sorted[1..], k)
  }

  lemma {:induction false} UnclaimedAtIs(list: seq<Message>, k: Key)
    ensures forall j :: 0 <= j < |UnclaimedAt(list, k)| ==>
              UnclaimedAt(list, k)[j] < |list| && Unclaimed(list[UnclaimedAt(list, k)[j]], k)
    ensures UnclaimedAt(list, k) == [] <==> Twin(list, k) == |list|
    ensures UnclaimedAt(list, k) != [] ==> UnclaimedAt(list, k)[0] == Twin(list, k)
  {
    if list != [] {
      var n := |list| - 1;
      UnclaimedAtIs(list[..n], k);
      TwinOfPrefix(list, k, n);
      hide Twin, Unclaimed;
      var before := UnclaimedAt(list[..n], k);
      forall j | 0 <= j < |before|
        ensures before[j] < n && Unclaimed(list[before[j]], k)
      {
        assert list[..n][before[j]] == list[before[j]];
      }
    }
  }

  lemma TwinOfPrefix(list: seq<Message>, k: Key, n: nat)
    requires n <= |list|
    ensures Twin(list[..n], k) == if Twin(list, k) < n then Twin(list, k) else n
  {
    var i, t := Twin(list[..n], k), Twin(list, k);
    assert forall j :: 0 <= j < n ==> list[..n][j] == list[j];
    assert i < n ==> t <= i;
    assert t < n ==> i <= t;
  }

  /** Every unclaimed twin has its position, and every delivery its timestamp. */
  lemma {:induction false} PositionsAndStampsAreAll(list: seq<Message>, sorted: seq<Delivery>, k: Key)
    ensures |UnclaimedAt(list, k)| == CountUnclaimed(list, k) && |StampsFor(sorted, k)| == CountDelivered(sorted, k)
    decreases |list| + |sorted|
  {
    if list != [] {
      PositionsAndStampsAreAll(list[..|list| - 1], sorted, k);
    } else if sorted != [] {
      PositionsAndStampsAreAll(list, sorted[1..], k);
    }
  }

  lemma PositionsOfInit(list: seq<Message>, k: Key)
    requires list != []
    ensures UnclaimedAt(list, k) == UnclaimedAt(list[..|list| - 1], k) + if Unclaimed(list[|list| - 1], k) then [(|list| - 1) as nat] else []
  {
  }

  /** Claiming the first twin removes its position. */
  lemma {:induction false} ClaimShifts(list: seq<Message>, i: nat, m: Message, k: Key)
    requires i < |list| && i == Twin(list, k) && m.createdAt.Some?
    ensures UnclaimedAt(list, k) != [] && UnclaimedAt(list[i := m], k) == UnclaimedAt(list, k)[1..]
  {
    hide UnclaimedAt, Twin;
    var n := |list| - 1;
    var init := list[..n];
    TwinOfPrefix(list, k, n);
    PositionsOfInit(list, k);
    PositionsOfInit(list[i := m], k);
    if i < n {
      assert list[i := m][..n] == init[i := m];
      ClaimShifts(init, i, m, k);
      DropAppend(UnclaimedAt(init, k), if Unclaimed(list[n], k) then [n as nat] else []);
    } else {
      assert list[i := m][..n] == init;
      UnclaimedAtIs(init, k);
      assert UnclaimedAt(list, k) == [] + [n];
      assert UnclaimedAt(list[i := m], k) == [] + [];
    }
  }

  lemma DropAppend(a: seq<nat>, b: seq<nat>)
    requires a != []
    ensures (a + b)[1..] == a[1..] + b
  {
  }

  /** Claiming a message of another text or sender leaves the positions. */
  lemma {:induction false} ClaimElsewhere(list: seq<Message>, i: nat, m: Message, k: Key)
    requires i < |list| && !Unclaimed(list[i], k) && m.createdAt.Some?
    ensures UnclaimedAt(list[i := m], k) == UnclaimedAt(list, k)
  {
    var n := |list| - 1;
    if i < n {
      assert list[i := m][..n] == list[..n][i := m];
      ClaimElsewhere(list[..n], i, m, k);
    } else {
      assert list[i := m][..n] == list[..n];
    }
  }

  /** Merging a fresh delivery takes the first position of its own text and sender, and no other. */
  lemma OneClaims(list: seq<Message>, d: Delivery, k: Key)
    requires !Known(list, d.createdAt)
    ensures var after := MergeOne(list, d);
            if DeliveryKey(d) != k then UnclaimedAt(after, k) == UnclaimedAt(list, k)
            else if UnclaimedAt(list, k) == [] then UnclaimedAt(after, k) == []
            else && UnclaimedAt(after, k) == UnclaimedAt(list, k)[1..]
                 && UnclaimedAt(list, k)[0] < |list| && after[UnclaimedAt(list, k)[0]].createdAt == Some(d.createdAt)
  {
    var i := Twin(list, DeliveryKey(d));
    var after := MergeOne(list, d);
    UnclaimedAtIs(list, DeliveryKey(d));
    if i < |list| {
      assert after == list[i := after[i]];
      if DeliveryKey(d) == k {
        ClaimShifts(list, i, after[i], k);
      } else {
        ClaimElsewhere(list, i, after[i], k);
      }
    } else {
      assert after[..|after| - 1] == list;
    }
  }

  /** The first deliveries of a text and sender claim its unclaimed messages in list order, one each. */
  lemma {:induction false} ClaimsInOrder(list: seq<Message>, sorted: seq<Delivery>, k: Key, j: nat)
    requires Fresh(list, sorted) && DistinctDeliveries(sorted)
    requires j < |UnclaimedAt(list, k)| && j < |StampsFor(sorted, k)|
    ensures UnclaimedAt(list, k)[j] < |list| <= |MergeSorted(list, sorted)|
    ensures MergeSorted(list, sorted)[UnclaimedAt(list, k)[j]].createdAt == Some(StampsFor(sorted, k)[j])
    decreases |sorted|
  {
    var d := sorted[0];
    var next := MergeOne(list, d);
    UnclaimedAtIs(list, k);
    FreshNext(list, sorted);
    OneClaims(list, d, k);
    hide MergeOne, Fresh, DistinctDeliveries, UnclaimedAt, Known, Unclaimed;
    MergeExtends(list, sorted);
    MergeExtends(next, sorted[1..]);
    if DeliveryKey(d) != k {
      ClaimsInOrder(next, sorted[1..], k, j);
    } else if j > 0 {
      ClaimsInOrder(next, sorted[1..], k, j - 1);
    }
  }

  // ----- Redelivery

  ghost predicate AllKnown(list: seq<Message>, batch: seq<Delivery>) {
    forall d :: d in batch ==> Known(list, d.createdAt)
  }

  ghost predicate HasTwin(list: seq<Message>, batch: seq<Delivery>) {
    exists d :: d in batch && Twin(list, DeliveryKey(d)) < |list|
  }

  /** A redelivered batch changes nothing exactly when none of its messages has an unclaimed local twin. */
  lemma {:induction false} RedeliveryExactly(list: seq<Message>, sorted: seq<Delivery>)
    requires AllKnown(list, sorted)
    ensures MergeSorted(list, sorted) == list <==> !HasTwin(list, sorted)
    decreases |sorted|
  {
    if sorted != [] {
      var d := sorted[0];
      assert d in sorted;
      var i := Twin(list, DeliveryKey(d));
      if i < |list| {
        var next := MergeOne(list, d);
        MergeExtends(next, sorted[1..]);
        assert next[i].createdAt.Some?;
      } else {
        assert forall x :: x in sorted[1..] ==> x in sorted;
        RedeliveryExactly(list, sorted[1..]);
        assert forall x :: x in sorted ==> x == d || x in sorted[1..];
      }
    }
  }

  /** One message delivered twice claims two local messages with the same text. */
  lemma RedeliveryClaimsSecondTwin()
    ensures var list := [Message(Local("u-1"), "hi", User, None), Message(Local("u-2"), "hi", User, None)];
            var d := Delivery("hi", User, 7);
            MergeSorted(list, [d, d]) == [Message(Stamp(7), "hi", User, Some(7)), Message(Stamp(7), "hi", User, Some(7))]
  {
    var list := [Message(Local("u-1"), "hi", User, None), Message(Local("u-2"), "hi", User, None)];
    var d := Delivery("hi", User, 7);
    var once := [Message(Stamp(7), "hi", User, Some(7)), Message(Local("u-2"), "hi", User, None)];
    assert MergeOne(list, d) == once;
    assert Twin(once, DeliveryKey(d)) == 1;
    assert [d, d][1..] == [d] && [d][1..] == [];
    assert MergeSorted(once, [d]) == MergeSorted(MergeOne(once, d), []);
  }

  // ----- The whole merge, for batches in any order

  lemma SortedIsSame(batch: seq<Delivery>)
    ensures multiset(InTimeOrder(batch)) == multiset(batch)
    ensures |InTimeOrder(batch)| == |batch|
    ensures forall d :: d in InTimeOrder(batch) <==> d in batch
  {
    SortMultiset(Earlier(), batch);
    assert |InTimeOrder(batch)| == |multiset(InTimeOrder(batch))| == |multiset(batch)|;
    forall d
      ensures d in InTimeOrder(batch) <==> d in batch
    {
      SameElements(InTimeOrder(batch), batch, d);
    }
  }

  lemma {:induction false} CountAsMultiset(batch: seq<Delivery>, d: Delivery)
    ensures multiset(batch)[d] > 0 <==> d in batch
    ensures DistinctDeliveries(batch) ==> multiset(batch)[d] <= 1
  {
    if batch != [] {
      assert batch == [batch[0]] + batch[1..];
      CountAsMultiset(batch[1..], d);
      if DistinctDeliveries(batch) && d == batch[0] {
        assert d !in batch[1..];
      }
    }
  }

  /** Distinct timestamps stay distinct in any other order. */
  lemma SameIsDistinct(batch: seq<Delivery>, same: seq<Delivery>)
    requires multiset(batch) == multiset(same) && DistinctDeliveries(batch)
    ensures DistinctDeliveries(same)
  {
    forall i, j | 0 <= i < j < |same|
      ensures same[i].createdAt != same[j].createdAt
    {
      SameElements(same, batch, same[i]);
      SameElements(same, batch, same[j]);
      CountAsMultiset(batch, same[i]);
      if same[i] == same[j] {
        TwoCopies(same, i, j);
      }
    }
  }

  lemma TwoCopies(s: seq<Delivery>, i: nat, j: nat)
    requires i < j < |s| && s[i] == s[j]
    ensures multiset(s)[s[i]] >= 2
  {
    assert s == s[..j] + s[j..];
    assert s[i] in s[..j] && s[i] in s[j..];
    assert multiset(s[..j])[s[i]] >= 1 && multiset(s[j..])[s[i]] >= 1;
  }

  lemma {:induction false} CountDeliveredSorted(a: seq<Delivery>, b: seq<Delivery>, k: Key)
    requires multiset(a) == multiset(b)
    ensures CountDelivered(a, k) == CountDelivered(b, k)
    decreases |a|
  {
    assert |a| == |multiset(a)| == |multiset(b)| == |b|;
    if a != [] {
      SameElements(a, b, a[0]);
      var j :| 0 <= j < |b| && b[j] == a[0];
      var rest := WithoutOne(b, j, k);
      TailMultiset(a);
      hide DeliveryKey;
      CountDeliveredSorted(a[1..], rest, k);
    }
  }

  lemma TailMultiset(a: seq<Delivery>)
    requires a != []
    ensures multiset(a[1..]) == multiset(a) - multiset{a[0]}
  {
    assert a == [a[0]] + a[1..];
  }

  lemma WithoutOne(b: seq<Delivery>, j: nat, k: Key) returns (rest: seq<Delivery>)
    requires j < |b|
    ensures multiset(rest) == multiset(b) - multiset{b[j]}
    ensures CountDelivered(b, k) == CountDelivered(rest, k) + if DeliveryKey(b[j]) == k then 1 else 0
  {
    var tail := b[j + 1..];
    rest := b[..j] + tail;
    assert b == b[..j] + ([b[j]] + tail);
    CountDeliveredAppend(b[..j], [b[j]] + tail, k);
    CountDeliveredAppend(b[..j], tail, k);
    assert ([b[j]] + tail)[1..] == tail;
  }

  lemma {:induction false} CountDeliveredAppend(a: seq<Delivery>, b: seq<Delivery>, k: Key)
    ensures CountDelivered(a + b, k) == CountDelivered(a, k) + CountDelivered(b, k)
  {
    if a == [] {
      assert a + b == b;
    } else {
      assert (a + b)[1..] == a[1..] + b;
      CountDeliveredAppend(a[1..], b, k);
    }
  }

  /** A message is unclaimed or acknowledged. */
  function CountAll(list: seq<Message>, k: Key): nat {
    CountUnclaimed(list, k) + CountAcknowledged(list, k)
  }

  /**
   The main result: a batch of fresh, distinct timestamps leaves the existing messages in place,
   keeps timestamps distinct, and makes the number of messages of each text and sender equal to
   acknowledged + max(unclaimed, delivered).
   */
  lemma MergeMeetsPromise(list: seq<Message>, batch: seq<Delivery>, k: Key)
    requires Fresh(list, batch) && DistinctDeliveries(batch) && DistinctStamps(list)
    ensures Extends(list, Merge(list, batch)) && DistinctStamps(Merge(list, batch))
    ensures CountAll(Merge(list, batch), k) == CountAcknowledged(list, k) + Max(CountUnclaimed(list, k), CountDelivered(batch, k))
  {
    var sorted := InTimeOrder(batch);
    SortedIsSame(batch);
    SameIsDistinct(batch, sorted);
    MergeExtends(list, sorted);
    MergeKeepsStampsDistinct(list, sorted);
    MergeCounts(list, sorted, k);
    CountDeliveredSorted(sorted, batch, k);
  }

  /** The loop over the sorted batch, editing a copy of the list in place. */
  method MergeLoop(prev: seq<Message>, sorted: seq<Delivery>) returns (updatedList: seq<Message>)
    ensures updatedList == MergeSorted(prev, sorted)
  {
    updatedList := prev;
    for n := 0 to |sorted|
      invariant MergeSorted(updatedList, sorted[n..]) == MergeSorted(prev, sorted)
    {
      var msg := sorted[n];
      assert sorted[n..][1..] == sorted[n + 1..];
      var matchIndex := Twin(updatedList, DeliveryKey(msg));
      if matchIndex != |updatedList| {
        updatedList := updatedList[matchIndex := updatedList[matchIndex].(id := Stamp(msg.createdAt), createdAt := Some(msg.createdAt))];
      } else if !Known(updatedList, msg.createdAt) {
        updatedList := updatedList + [Message(Stamp(msg.createdAt), msg.text, msg.sender, Some(msg.createdAt))];
      }
    }
  }
}
