/**
 The offline replay queue of packages/shared/src/api.js.

 A GET or HEAD request that fails while the browser is offline is parked: its caller
 gets a promise and the queue gets an entry. A retry call splices the whole queue
 into a batch and replays the batch one item at a time. A replay that fails offline
 goes through the same interceptor, so it is parked again as a new entry and the
 batch waits for the promise of that entry. Several batches can be suspended at once.

 The state below records the queue, every suspended batch and every entry ever made.
 A state changes by one event at a time, in any order the browser delivers them.
 */
module RetryQueue {
  import opened Prelude

  /** What a promise settles with: the response or the error, as opaque tokens. */
  datatype Outcome = Fulfilled(response: nat) | Rejected(error: nat)

  /** `axios` request configuration: the method (lower-cased) and the queued marker. */
  datatype Config = Config(httpMethod: string, queuedForOfflineRetry: bool)

  /** A failed request as the response interceptor sees it. */
  datatype Failure = Failure(hasResponse: bool, networkError: bool, error: nat)

  /** What one network round trip of a replay gives back. */
  datatype Reply = Answer(response: nat) | Fault(failure: Failure, onLine: bool)

  /**
   An entry of the queue, with the history that its promise has had. `settlements` lists
   every call of `resolve` or `reject`, `reply` is the answer of the network to its own
   replay, and `requeuedAs` is the entry that replay was parked as, if it was.
   */
  datatype Entry = Entry(config: Config, settlements: seq<Outcome>, reply: Option<Outcome>, requeuedAs: Option<nat>)

  /**
   One suspended `retryPendingRequests` call: the spliced items, the index of the item it
   awaits, and the entry that item was parked as again, if it was.
   */
  datatype Batch = Batch(items: seq<nat>, next: nat, blockedOn: Option<nat>, succeeded: nat)

  datatype State = State(entries: seq<Entry>, queue: seq<nat>, batches: seq<Batch>)

  datatype Event =
    | FreshFailure(config: Config, failure: Failure, onLine: bool)
    | Retry
    | Replayed(batch: nat, reply: Reply)
    | Woken(batch: nat)

  const Initial := State([], [], [])

  // ----- The interceptor and the replay loop, one event at a time

  predicate Idempotent(config: Config) {
    config.httpMethod in {"get", "head"}
  }

  /** The test of the interceptor: park this failure instead of reporting it. */
  predicate Parks(config: Config, failure: Failure, onLine: bool) {
    !failure.hasResponse && !onLine && failure.networkError && !config.queuedForOfflineRetry && Idempotent(config)
  }

  function Park(s: State, config: Config): State {
    s.(entries := s.entries + [Entry(config.(queuedForOfflineRetry := true), [], None, None)],
       queue := s.queue + [|s.entries|])
  }

  /** The batch starts its next item: the queued marker is deleted just before the replay. */
  function Unmark(entries: seq<Entry>, items: seq<nat>, next: nat): seq<Entry> {
    if next < |items| && items[next] < |entries|
    then entries[items[next] := entries[items[next]].(config := entries[items[next]].config.(queuedForOfflineRetry := false))]
    else entries
  }

  function Splice(s: State): State {
    if s.queue == [] then s
    else State(Unmark(s.entries, s.queue, 0), [], s.batches + [Batch(s.queue, 0, None, 0)])
  }

  predicate Active(b: Batch) {
    b.next < |b.items|
  }

  /** Batch `b` settles the item it awaits with outcome `o` and moves on to its next item. */
  function Settle(s: State, b: nat, o: Outcome): State
    requires b < |s.batches| && Active(s.batches[b]) && s.batches[b].items[s.batches[b].next] < |s.entries|
  {
    var batch := s.batches[b];
    var e := batch.items[batch.next];
    var entries := s.entries[e := s.entries[e].(settlements := s.entries[e].settlements + [o])];
    s.(entries := Unmark(entries, batch.items, batch.next + 1),
       batches := s.batches[b := Batch(batch.items, batch.next + 1, None, batch.succeeded + if o.Fulfilled? then 1 else 0)])
  }

  /** The network answers the replay of entry `e`. */
  function Heard(s: State, e: nat, o: Outcome): State
    requires e < |s.entries|
  {
    s.(entries := s.entries[e := s.entries[e].(reply := Some(o))])
  }

  /** The replay of entry `e` was parked again and batch `b` waits for the new entry. */
  function Block(s: State, b: nat, e: nat): State
    requires b < |s.batches| && e < |s.entries|
  {
    var n := |s.entries|;
    var parked := Park(s.(entries := s.entries[e := s.entries[e].(requeuedAs := Some(n))]), s.entries[e].config);
    parked.(batches := s.batches[b := s.batches[b].(blockedOn := Some(n))])
  }

  predicate Flying(s: State, b: nat) {
    b < |s.batches| && Active(s.batches[b]) && s.batches[b].blockedOn.None?
    && s.batches[b].items[s.batches[b].next] < |s.entries|
  }

  predicate Wakeable(s: State, b: nat) {
    && b < |s.batches| && Active(s.batches[b]) && s.batches[b].blockedOn.Some?
    && s.batches[b].items[s.batches[b].next] < |s.entries|
    && s.batches[b].blockedOn.value < |s.entries|
    && s.entries[s.batches[b].blockedOn.value].settlements != []
  }

  predicate Enabled(s: State, ev: Event) {
    match ev
    case FreshFailure(_, _, _) => true
    case Retry => true
    case Replayed(b, _) => Flying(s, b)
    case Woken(b) => Wakeable(s, b)
  }

  function Apply(s: State, ev: Event): State
    requires Enabled(s, ev)
  {
    match ev
    case FreshFailure(config, failure, onLine) => if Parks(config, failure, onLine) then Park(s, config) else s
    case Retry => Splice(s)
    case Replayed(b, reply) =>
      var e := s.batches[b].items[s.batches[b].next];
      (match reply
       case Answer(response) => Settle(Heard(s, e, Fulfilled(response)), b, Fulfilled(response))
       case Fault(failure, onLine) =>
         if Parks(s.entries[e].config, failure, onLine) then Block(s, b, e)
         else Settle(Heard(s, e, Rejected(failure.error)), b, Rejected(failure.error)))
    case Woken(b) => Settle(s, b, s.entries[s.batches[b].blockedOn.value].settlements[0])
  }

  ghost predicate Run(s: State, evs: seq<Event>, t: State)
    decreases |evs|
  {
    if evs == [] then s == t
    else Enabled(s, evs[0]) && Run(Apply(s, evs[0]), evs[1..], t)
  }

  // ----- Where a request is held

  /** How often a batch still holds an entry: as the item it awaits or in its unprocessed tail. */
  function Copies(b: Batch, e: nat): nat {
    if Active(b) then multiset(b.items[b.next..])[e] else 0
  }

  function CopiesInBatches(batches: seq<Batch>, e: nat): nat {
    if batches == [] then 0 else Copies(batches[0], e) + CopiesInBatches(batches[1..], e)
  }

  /** Every place that holds an entry, counted: the queue and all suspended batches. */
  function Holders(s: State, e: nat): nat {
    multiset(s.queue)[e] + CopiesInBatches(s.batches, e)
  }

  predicate Pending(s: State, e: nat) {
    e < |s.entries| && s.entries[e].settlements == []
  }

  ghost predicate HeldOnce(s: State) {
    forall e: nat :: Holders(s, e) == if Pending(s, e) then 1 else 0
  }

  function FulfilledAmong(entries: seq<Entry>, items: seq<nat>): nat {
    if items == [] then 0
    else FulfilledAmong(entries, items[..|items| - 1])
         + if Last(items) < |entries| && entries[Last(items)].settlements != [] && entries[Last(items)].settlements[0].Fulfilled? then 1 else 0
  }

  function Last(items: seq<nat>): nat
    requires items != []
  {
    items[|items| - 1]
  }

  ghost predicate EntryOk(entries: seq<Entry>, e: nat)
    requires e < |entries|
  {
    var entry := entries[e];
    && Idempotent(entry.config)
    && |entry.settlements| <= 1
    && (entry.reply.Some? ==> entry.requeuedAs.None? && entry.settlements == [entry.reply.value])
    && (entry.requeuedAs.Some? ==> e < entry.requeuedAs.value < |entries|)
    && (entry.requeuedAs.Some? && entry.settlements != [] ==> entries[entry.requeuedAs.value].settlements == entry.settlements)
    && (entry.requeuedAs.None? && entry.settlements != [] ==> entry.reply == Some(entry.settlements[0]))
  }

  ghost predicate BatchOk(s: State, b: nat)
    requires b < |s.batches|
  {
    var batch := s.batches[b];
    && batch.next <= |batch.items|
    && (forall i :: 0 <= i < |batch.items| ==> batch.items[i] < |s.entries|)
    && (forall i :: 0 <= i < batch.next ==> s.entries[batch.items[i]].settlements != [])
    && batch.succeeded == FulfilledAmong(s.entries, batch.items[..batch.next])
    && (!Active(batch) ==> batch.blockedOn.None?)
    && (Active(batch) ==>
          var entry := s.entries[batch.items[batch.next]];
          !entry.config.queuedForOfflineRetry && entry.requeuedAs == batch.blockedOn)
    && (forall i :: batch.next < i < |batch.items| ==> s.entries[batch.items[i]].requeuedAs.None?)
    && (batch.blockedOn.Some? ==> batch.blockedOn.value < |s.entries|)
  }

  /** A batch only waits for an entry that is queued or held by a batch spliced later. */
  ghost predicate WaitsForLater(s: State) {
    forall b, c :: 0 <= c <= b < |s.batches| && s.batches[b].blockedOn.Some? ==>
      Copies(s.batches[c], s.batches[b].blockedOn.value) == 0
  }

  ghost predicate QueueOk(s: State) {
    forall i :: 0 <= i < |s.queue| ==> s.queue[i] < |s.entries| && s.entries[s.queue[i]].requeuedAs.None?
  }

  ghost predicate Inv(s: State) {
    && QueueOk(s)
    && HeldOnce(s)
    && (forall e :: 0 <= e < |s.entries| ==> EntryOk(s.entries, e))
    && (forall b :: 0 <= b < |s.batches| ==> BatchOk(s, b))
    && WaitsForLater(s)
  }

  // ----- Counting the holders

  lemma {:induction false} CopiesAppend(batches: seq<Batch>, b: Batch, e: nat)
    ensures CopiesInBatches(batches + [b], e) == CopiesInBatches(batches, e) + Copies(b, e)
  {
    if batches != [] {
      assert (batches + [b])[1..] == batches[1..] + [b];
      CopiesAppend(batches[1..], b, e);
    } else {
      assert (batches + [b])[1..] == [];
    }
  }

  lemma {:induction false} CopiesUpdate(batches: seq<Batch>, b: nat, x: Batch, e: nat)
    requires b < |batches|
    ensures CopiesInBatches(batches[b := x], e) + Copies(batches[b], e) == CopiesInBatches(batches, e) + Copies(x, e)
  {
    if b == 0 {
      assert batches[0 := x][1..] == batches[1..];
    } else {
      assert batches[b := x][1..] == batches[1..][b - 1 := x];
      CopiesUpdate(batches[1..], b - 1, x, e);
    }
  }

  lemma {:induction false} CopiesPart(batches: seq<Batch>, b: nat, e: nat)
    requires b < |batches|
    ensures Copies(batches[b], e) <= CopiesInBatches(batches, e)
  {
    if b != 0 {
      CopiesPart(batches[1..], b - 1, e);
    }
  }

  lemma CopiesParts(batches: seq<Batch>, b: nat, c: nat, e: nat)
    requires b < |batches| && c < |batches| && b != c
    ensures Copies(batches[b], e) + Copies(batches[c], e) <= CopiesInBatches(batches, e)
  {
    var blank := Batch([], 0, None, 0);
    CopiesUpdate(batches, b, blank, e);
    CopiesPart(batches[b := blank], c, e);
  }

  lemma CopiesShift(b: Batch, moved: Batch, e: nat)
    requires Active(b) && moved.items == b.items && moved.next == b.next + 1
    ensures Copies(b, e) == Copies(moved, e) + if e == b.items[b.next] then 1 else 0
  {
    assert b.items[b.next..] == [b.items[b.next]] + b.items[b.next + 1..];
  }

  lemma CopiesOfTail(b: Batch, i: nat)
    requires b.next <= i < |b.items|
    ensures Copies(b, b.items[i]) >= 1
  {
    assert b.items[i] == b.items[b.next..][i - b.next];
  }

  /** The awaited item of an active batch is pending, and no other place holds it. */
  lemma AwaitedOnce(s: State, b: nat)
    requires Inv(s) && b < |s.batches| && Active(s.batches[b])
    ensures var e := s.batches[b].items[s.batches[b].next];
            && Pending(s, e)
            && e !in s.queue
            && (forall i :: s.batches[b].next < i < |s.batches[b].items| ==> s.batches[b].items[i] != e)
            && (forall c, i :: 0 <= c < |s.batches| && c != b && s.batches[c].next <= i < |s.batches[c].items| ==> s.batches[c].items[i] != e)
  {
    var batch := s.batches[b];
    var e := batch.items[batch.next];
    var moved := batch.(next := batch.next + 1);
    CopiesShift(batch, moved, e);
    CopiesPart(s.batches, b, e);
    assert Holders(s, e) == 1;
    forall i | batch.next < i < |batch.items|
      ensures batch.items[i] != e
    {
      CopiesOfTail(moved, i);
    }
    forall c, i | 0 <= c < |s.batches| && c != b && s.batches[c].next <= i < |s.batches[c].items|
      ensures s.batches[c].items[i] != e
    {
      CopiesParts(s.batches, b, c, e);
      CopiesOfTail(s.batches[c], i);
    }
  }

  // ----- Histories that agree

  /** The same history, with the queued marker at most deleted. */
  ghost predicate SameHistory(old_: Entry, new_: Entry)
  {
    && new_.settlements == old_.settlements && new_.reply == old_.reply && new_.requeuedAs == old_.requeuedAs
    && new_.config.httpMethod == old_.config.httpMethod
    && (new_.config.queuedForOfflineRetry ==> old_.config.queuedForOfflineRetry)
  }

  lemma UnmarkShape(entries: seq<Entry>, items: seq<nat>, next: nat)
    requires next < |items| ==> items[next] < |entries|
    ensures |Unmark(entries, items, next)| == |entries|
    ensures forall x :: 0 <= x < |entries| ==> SameHistory(entries[x], Unmark(entries, items, next)[x])
    ensures next < |items| ==> !Unmark(entries, items, next)[items[next]].config.queuedForOfflineRetry
  {
  }

  lemma {:induction false} FulfilledFrame(old_: seq<Entry>, new_: seq<Entry>, items: seq<nat>)
    requires forall i :: 0 <= i < |items| ==> items[i] < |old_| <= |new_| && old_[items[i]].settlements == new_[items[i]].settlements
    ensures FulfilledAmong(old_, items) == FulfilledAmong(new_, items)
  {
    if items != [] {
      var init := items[..|items| - 1];
      forall i | 0 <= i < |init|
        ensures init[i] < |old_| <= |new_| && old_[init[i]].settlements == new_[init[i]].settlements
      {
        assert init[i] == items[i];
      }
      FulfilledFrame(old_, new_, init);
    }
  }

  // ----- Every event keeps the invariant

  lemma ParkKeeps(s: State, config: Config)
    requires Inv(s) && Idempotent(config)
    ensures Inv(Park(s, config))
  {
    var t := Park(s, config);
    forall e: nat
      ensures Holders(t, e) == if Pending(t, e) then 1 else 0
    {
      assert Holders(t, e) == Holders(s, e) + if e == |s.entries| then 1 else 0;
    }
    forall b | 0 <= b < |t.batches|
      ensures BatchOk(t, b)
    {
      assert BatchOk(s, b);
      FulfilledFrame(s.entries, t.entries, s.batches[b].items[..s.batches[b].next]);
    }
    forall e | 0 <= e < |t.entries|
      ensures EntryOk(t.entries, e)
    {
      if e < |s.entries| {
        assert EntryOk(s.entries, e);
      }
    }
  }

  lemma SpliceKeeps(s: State)
    requires Inv(s)
    ensures Inv(Splice(s))
  {
    if s.queue == [] {
      return;
    }
    var t := Splice(s);
    UnmarkShape(s.entries, s.queue, 0);
    forall e: nat
      ensures Holders(t, e) == if Pending(t, e) then 1 else 0
    {
      CopiesAppend(s.batches, Batch(s.queue, 0, None, 0), e);
      assert s.queue[0..] == s.queue;
      assert Holders(t, e) == Holders(s, e);
    }
    forall b | 0 <= b < |t.batches|
      ensures BatchOk(t, b)
    {
      if b < |s.batches| {
        assert BatchOk(s, b);
        FulfilledFrame(s.entries, t.entries, s.batches[b].items[..s.batches[b].next]);
      }
    }
    forall e | 0 <= e < |t.entries|
      ensures EntryOk(t.entries, e)
    {
      assert EntryOk(s.entries, e);
    }
  }

  /** What settling the awaited item `e` of batch `b` with `o` does to the entries. */
  ghost predicate SettledBy(s: State, t: State, b: nat, e: nat, o: Outcome)
    requires b < |s.batches| && Active(s.batches[b])
  {
    var batch := s.batches[b];
    && e == batch.items[batch.next] && e < |s.entries| && |t.entries| == |s.entries| && t.queue == s.queue
    && (forall x :: 0 <= x < |s.entries| && x != e ==> SameHistory(s.entries[x], t.entries[x]))
    && t.entries[e].settlements == [o]
    && t.entries[e].requeuedAs == s.entries[e].requeuedAs
    && t.entries[e].config.httpMethod == s.entries[e].config.httpMethod
    && t.entries[e].reply == (if batch.blockedOn.None? then Some(o) else s.entries[e].reply)
    && (batch.next + 1 < |batch.items| ==> batch.items[batch.next + 1] < |t.entries| && !t.entries[batch.items[batch.next + 1]].config.queuedForOfflineRetry)
    && t.batches == s.batches[b := Batch(batch.items, batch.next + 1, None, batch.succeeded + if o.Fulfilled? then 1 else 0)]
  }

  lemma SettleShape(s: State, b: nat, o: Outcome)
    requires Inv(s) && b < |s.batches| && Active(s.batches[b])
    ensures var e := s.batches[b].items[s.batches[b].next];
            e < |s.entries| && SettledBy(s, Settle(if s.batches[b].blockedOn.None? then Heard(s, e, o) else s, b, o), b, e, o)
  {
    var batch := s.batches[b];
    assert BatchOk(s, b);
    AwaitedOnce(s, b);
    assert Pending(s, batch.items[batch.next]);
    hide Inv, BatchOk;
    SettleAwaitedShape(s, b, o);
  }

  lemma SettleAwaitedShape(s: State, b: nat, o: Outcome)
    requires b < |s.batches| && Active(s.batches[b]) && Pending(s, s.batches[b].items[s.batches[b].next])
    requires var batch := s.batches[b];
             batch.next + 1 < |batch.items| ==>
               batch.items[batch.next + 1] < |s.entries| && batch.items[batch.next + 1] != batch.items[batch.next]
    ensures var e := s.batches[b].items[s.batches[b].next];
            SettledBy(s, Settle(if s.batches[b].blockedOn.None? then Heard(s, e, o) else s, b, o), b, e, o)
  {
    var batch := s.batches[b];
    var e := batch.items[batch.next];
    var h := if batch.blockedOn.None? then Heard(s, e, o) else s;
    var settled := h.entries[e := h.entries[e].(settlements := h.entries[e].settlements + [o])];
    UnmarkShape(settled, batch.items, batch.next + 1);
    assert Settle(h, b, o).entries == Unmark(settled, batch.items, batch.next + 1);
    hide Unmark;
  }

  /**
   Settling keeps the invariant, whether the network just answered the replay (the
   batch is not blocked) or the entry the batch was blocked on has settled with `o`.
   */
  lemma SettleKeeps(s: State, t: State, b: nat, e: nat, o: Outcome)
    requires Inv(s) && b < |s.batches| && Active(s.batches[b]) && SettledBy(s, t, b, e, o)
    requires s.batches[b].blockedOn.Some? ==> BatchOk(s, b) && s.entries[s.batches[b].blockedOn.value].settlements == [o]
    ensures Inv(t)
  {
    AwaitedOnce(s, b);
    SettleHolding(s, t, b, e, o);
    forall x | 0 <= x < |t.entries|
      ensures EntryOk(t.entries, x)
    {
      assert EntryOk(s.entries, x) && EntryOk(s.entries, e);
      assert BatchOk(s, b);
    }
    forall c | 0 <= c < |t.batches|
      ensures BatchOk(t, c)
    {
      SettleBatches(s, t, b, e, o, c);
    }
    forall c, d | 0 <= d <= c < |t.batches| && t.batches[c].blockedOn.Some?
      ensures Copies(t.batches[d], t.batches[c].blockedOn.value) == 0
    {
      assert Copies(s.batches[d], s.batches[c].blockedOn.value) == 0;
      CopiesShift(s.batches[b], t.batches[b], s.batches[c].blockedOn.value);
    }
  }

  lemma SettleHolding(s: State, t: State, b: nat, e: nat, o: Outcome)
    requires Inv(s) && b < |s.batches| && Active(s.batches[b]) && SettledBy(s, t, b, e, o) && Pending(s, e)
    ensures HeldOnce(t)
  {
    forall x: nat
      ensures Holders(t, x) == if Pending(t, x) then 1 else 0
    {
      CopiesShift(s.batches[b], t.batches[b], x);
      CopiesUpdate(s.batches, b, t.batches[b], x);
      assert Holders(s, x) == if Pending(s, x) then 1 else 0;
    }
  }

  lemma SettleBatches(s: State, t: State, b: nat, e: nat, o: Outcome, c: nat)
    requires Inv(s) && b < |s.batches| && Active(s.batches[b]) && SettledBy(s, t, b, e, o) && Pending(s, e)
    requires c < |s.batches|
    ensures BatchOk(t, c)
  {
    AwaitedOnce(s, b);
    assert BatchOk(s, c);
    if c == b {
      SettledBatch(s, t, b, e, o);
    } else {
      OtherBatch(s, t, b, e, o, c);
    }
  }

  /** The batch that settled its item, at the next one. */
  lemma SettledBatch(s: State, t: State, b: nat, e: nat, o: Outcome)
    requires b < |s.batches| && Active(s.batches[b]) && SettledBy(s, t, b, e, o) && Pending(s, e) && BatchOk(s, b)
    requires forall i :: s.batches[b].next < i < |s.batches[b].items| ==> s.batches[b].items[i] != e
    ensures BatchOk(t, b)
  {
    DoneStays(s, t, b, e, o, b);
    var done := s.batches[b].items[..s.batches[b].next + 1];
    assert done[..s.batches[b].next] == s.batches[b].items[..s.batches[b].next];
  }

  lemma OtherBatch(s: State, t: State, b: nat, e: nat, o: Outcome, c: nat)
    requires b < |s.batches| && Active(s.batches[b]) && SettledBy(s, t, b, e, o) && Pending(s, e)
    requires c < |s.batches| && c != b && BatchOk(s, c)
    requires forall i :: s.batches[c].next <= i < |s.batches[c].items| ==> s.batches[c].items[i] != e
    ensures BatchOk(t, c)
  {
    DoneStays(s, t, b, e, o, c);
    hide FulfilledAmong;
  }

  /** The items a batch has settled are settled as before. */
  lemma DoneStays(s: State, t: State, b: nat, e: nat, o: Outcome, c: nat)
    requires b < |s.batches| && Active(s.batches[b]) && SettledBy(s, t, b, e, o) && Pending(s, e)
    requires c < |s.batches| && BatchOk(s, c)
    ensures FulfilledAmong(t.entries, s.batches[c].items[..s.batches[c].next]) == s.batches[c].succeeded
  {
    var done := s.batches[c].items[..s.batches[c].next];
    forall i | 0 <= i < |done|
      ensures done[i] < |s.entries| <= |t.entries| && s.entries[done[i]].settlements == t.entries[done[i]].settlements
    {
      assert done[i] == s.batches[c].items[i];
    }
    hide FulfilledAmong, SettledBy, Pending;
    FulfilledFrame(s.entries, t.entries, done);
  }

  lemma BlockKeeps(s: State, b: nat)
    requires Inv(s) && Flying(s, b)
    ensures Inv(Block(s, b, s.batches[b].items[s.batches[b].next]))
  {
    var batch := s.batches[b];
    var e := batch.items[batch.next];
    var n := |s.entries|;
    var t := Block(s, b, e);
    AwaitedOnce(s, b);
    assert BatchOk(s, b) && EntryOk(s.entries, e);
    BlockHolding(s, b);
    forall c | 0 <= c < |t.batches|
      ensures BatchOk(t, c)
    {
      BlockBatches(s, b, c);
    }
    forall c | 0 <= c < |s.batches|
      ensures Copies(t.batches[c], n) == 0
    {
      CopiesPart(s.batches, c, n);
      assert Holders(s, n) == 0;
    }
    forall x | 0 <= x < |t.entries|
      ensures EntryOk(t.entries, x)
    {
      if x < n {
        assert EntryOk(s.entries, x);
      }
    }
  }

  lemma BlockHolding(s: State, b: nat)
    requires Inv(s) && Flying(s, b)
    ensures HeldOnce(Block(s, b, s.batches[b].items[s.batches[b].next]))
  {
    var t := Block(s, b, s.batches[b].items[s.batches[b].next]);
    forall x: nat
      ensures Holders(t, x) == if Pending(t, x) then 1 else 0
    {
      CopiesUpdate(s.batches, b, t.batches[b], x);
      assert Copies(t.batches[b], x) == Copies(s.batches[b], x);
      assert Holders(s, x) == if Pending(s, x) then 1 else 0;
    }
  }

  lemma BlockBatches(s: State, b: nat, c: nat)
    requires Inv(s) && Flying(s, b) && c < |s.batches|
    ensures BatchOk(Block(s, b, s.batches[b].items[s.batches[b].next]), c)
  {
    var e := s.batches[b].items[s.batches[b].next];
    var t := Block(s, b, e);
    AwaitedOnce(s, b);
    assert BatchOk(s, c) && BatchOk(s, b);
    FulfilledFrame(s.entries, t.entries, s.batches[c].items[..s.batches[c].next]);
  }

  lemma EventKeeps(s: State, ev: Event)
    requires Inv(s) && Enabled(s, ev)
    ensures Inv(Apply(s, ev))
  {
    match ev
    case FreshFailure(config, failure, onLine) =>
      if Parks(config, failure, onLine) {
        ParkKeeps(s, config);
      }
    case Retry => SpliceKeeps(s);
    case Replayed(b, reply) =>
      var e := s.batches[b].items[s.batches[b].next];
      match reply {
        case Answer(response) =>
          SettleShape(s, b, Fulfilled(response));
          SettleKeeps(s, Apply(s, ev), b, e, Fulfilled(response));
        case Fault(failure, onLine) =>
          if Parks(s.entries[e].config, failure, onLine) {
            BlockKeeps(s, b);
          } else {
            SettleShape(s, b, Rejected(failure.error));
            SettleKeeps(s, Apply(s, ev), b, e, Rejected(failure.error));
          }
      }
    case Woken(b) =>
      var o := s.entries[s.batches[b].blockedOn.value].settlements[0];
      assert BatchOk(s, b) && EntryOk(s.entries, s.batches[b].blockedOn.value);
      SettleShape(s, b, o);
      SettleKeeps(s, Apply(s, ev), b, s.batches[b].items[s.batches[b].next], o);
  }

  /** A replay that fails offline is always parked again: its marker was deleted, and only GET and HEAD are ever parked. */
  lemma OfflineReplayIsParkedAgain(s: State, b: nat, failure: Failure)
    requires Inv(s) && Flying(s, b) && !failure.hasResponse && failure.networkError
    ensures Apply(s, Replayed(b, Fault(failure, false))) == Block(s, b, s.batches[b].items[s.batches[b].next])
  {
    assert BatchOk(s, b) && EntryOk(s.entries, s.batches[b].items[s.batches[b].next]);
  }

  // ----- Safety over every run

  /** In every reachable state each pending request is held in exactly one place, each settled one nowhere. */
  lemma {:induction false} RunKeeps(s: State, evs: seq<Event>, t: State)
    requires Inv(s) && Run(s, evs, t)
    ensures Inv(t)
    decreases |evs|
  {
    if evs != [] {
      EventKeeps(s, evs[0]);
      RunKeeps(Apply(s, evs[0]), evs[1..], t);
    }
  }

  lemma NothingIsLost(evs: seq<Event>, t: State, e: nat)
    requires Run(Initial, evs, t)
    ensures Holders(t, e) == if Pending(t, e) then 1 else 0
  {
    RunKeeps(Initial, evs, t);
  }

  lemma SettleExtends(s: State, b: nat, o: Outcome, e: nat)
    requires b < |s.batches| && Active(s.batches[b]) && s.batches[b].items[s.batches[b].next] < |s.entries| && e < |s.entries|
    ensures var after := Settle(s, b, o).entries;
            |after| == |s.entries| && s.entries[e].settlements <= after[e].settlements
  {
  }

  lemma EventExtends(s: State, ev: Event, e: nat)
    requires Enabled(s, ev) && e < |s.entries|
    ensures |s.entries| <= |Apply(s, ev).entries| && s.entries[e].settlements <= Apply(s, ev).entries[e].settlements
  {
    hide Settle;
    match ev
    case Replayed(b, reply) =>
      var awaited := s.batches[b].items[s.batches[b].next];
      match reply {
        case Answer(response) =>
          SettleExtends(Heard(s, awaited, Fulfilled(response)), b, Fulfilled(response), e);
        case Fault(failure, onLine) =>
          SettleExtends(Heard(s, awaited, Rejected(failure.error)), b, Rejected(failure.error), e);
      }
    case Woken(b) => SettleExtends(s, b, s.entries[s.batches[b].blockedOn.value].settlements[0], e);
    case _ =>
  }

  /** A promise settles at most once: whatever follows, its first settlement is its only one. */
  lemma {:induction false} SettlesOnce(s: State, evs: seq<Event>, t: State, e: nat)
    requires Inv(s) && Run(s, evs, t) && e < |s.entries|
    ensures e < |t.entries| && |t.entries[e].settlements| <= 1
    ensures s.entries[e].settlements != [] ==> t.entries[e].settlements == s.entries[e].settlements
    decreases |evs|
  {
    if evs == [] {
      assert EntryOk(s.entries, e);
    } else {
      EventKeeps(s, evs[0]);
      EventExtends(s, evs[0], e);
      var u := Apply(s, evs[0]);
      assert EntryOk(u.entries, e);
      SettlesOnce(u, evs[1..], t, e);
    }
  }

  /** What the network answered to the last replay in the chain of entries that starts at `e`. */
  ghost function LastReply(entries: seq<Entry>, e: nat): Option<Outcome>
    requires e < |entries| && forall x :: 0 <= x < |entries| ==> EntryOk(entries, x)
    decreases |entries| - e
  {
    assert EntryOk(entries, e);
    match entries[e].requeuedAs
    case None => entries[e].reply
    case Some(n) => LastReply(entries, n)
  }

  lemma {:induction false} SettlesWithLastReply(s: State, e: nat)
    requires Inv(s) && e < |s.entries| && s.entries[e].settlements != []
    ensures LastReply(s.entries, e).Some? && s.entries[e].settlements == [LastReply(s.entries, e).value]
    decreases |s.entries| - e
  {
    assert EntryOk(s.entries, e);
    if s.entries[e].requeuedAs.Some? {
      SettlesWithLastReply(s, s.entries[e].requeuedAs.value);
    }
  }

  /** The count a finished retry call returns: the items whose promise was resolved, not the items replayed. */
  lemma ReturnsSuccesses(evs: seq<Event>, t: State, b: nat)
    requires Run(Initial, evs, t) && b < |t.batches| && !Active(t.batches[b])
    ensures t.batches[b].succeeded == FulfilledAmong(t.entries, t.batches[b].items)
  {
    RunKeeps(Initial, evs, t);
    assert BatchOk(t, b);
    assert t.batches[b].items[..t.batches[b].next] == t.batches[b].items;
  }

  // ----- Which requests are parked

  /** A request is parked exactly if it is a GET or HEAD that failed without a response while offline, and is not parked yet. */
  lemma ParksExactly(s: State, config: Config, failure: Failure, onLine: bool)
    ensures var t := Apply(s, FreshFailure(config, failure, onLine));
            if !onLine && failure.networkError && !failure.hasResponse && !config.queuedForOfflineRetry
               && (config.httpMethod == "get" || config.httpMethod == "head")
            then |t.queue| == |s.queue| + 1 && |t.entries| == |s.entries| + 1
            else t == s
  {
  }

  // ----- The order of the replays

  function ItemsOf(batches: seq<Batch>): seq<nat> {
    if batches == [] then [] else ItemsOf(batches[..|batches| - 1]) + batches[|batches| - 1].items
  }

  /** The items of all retry calls, one call after the other, and then the queue: every request ever parked, oldest first. */
  ghost predicate InOrder(s: State) {
    var all := ItemsOf(s.batches) + s.queue;
    |all| == |s.entries| && forall i :: 0 <= i < |all| ==> all[i] == i
  }

  lemma {:induction false} ItemsUpdate(batches: seq<Batch>, b: nat, moved: Batch)
    requires b < |batches| && moved.items == batches[b].items
    ensures ItemsOf(batches[b := moved]) == ItemsOf(batches)
  {
    var n := |batches| - 1;
    if b < n {
      assert batches[b := moved][..n] == batches[..n][b := moved];
      ItemsUpdate(batches[..n], b, moved);
    } else {
      assert batches[b := moved][..n] == batches[..n];
    }
  }

  lemma OneMoreInOrder(items: seq<nat>, queue: seq<nat>, n: nat)
    requires |items + queue| == n && forall i :: 0 <= i < n ==> (items + queue)[i] == i
    ensures items + (queue + [n]) == (items + queue) + [n]
    ensures forall i :: 0 <= i <= n ==> (items + (queue + [n]))[i] == i
  {
    Regroup(items, queue, [n]);
  }

  lemma EventKeepsOrder(s: State, ev: Event)
    requires Enabled(s, ev) && InOrder(s)
    ensures InOrder(Apply(s, ev)) && |s.entries| <= |Apply(s, ev).entries|
  {
    match ev
    case FreshFailure(config, failure, onLine) => OneMoreInOrder(ItemsOf(s.batches), s.queue, |s.entries|);
    case Retry =>
      if s.queue != [] {
        var batch := Batch(s.queue, 0, None, 0);
        assert (s.batches + [batch])[..|s.batches|] == s.batches;
        assert ItemsOf(s.batches + [batch]) + [] == ItemsOf(s.batches) + s.queue;
      }
    case Replayed(b, reply) =>
      ItemsUpdate(s.batches, b, Apply(s, ev).batches[b]);
      OneMoreInOrder(ItemsOf(s.batches), s.queue, |s.entries|);
    case Woken(b) => ItemsUpdate(s.batches, b, Apply(s, ev).batches[b]);
  }

  lemma {:induction false} RunKeepsOrder(s: State, evs: seq<Event>, t: State)
    requires InOrder(s) && Run(s, evs, t)
    ensures InOrder(t) && |s.entries| <= |t.entries|
    decreases |evs|
  {
    if evs != [] {
      EventKeepsOrder(s, evs[0]);
      hide InOrder, Apply, Enabled;
      RunKeepsOrder(Apply(s, evs[0]), evs[1..], t);
    }
  }

  /** How many items the batches before `b` have. */
  function Earlier(batches: seq<Batch>, b: nat): nat
    requires b <= |batches|
  {
    |ItemsOf(batches[..b])|
  }

  lemma {:induction false} ItemsOfPrefix(batches: seq<Batch>, b: nat)
    requires b < |batches|
    ensures ItemsOf(batches[..b]) + batches[b].items <= ItemsOf(batches)
  {
    var n := |batches| - 1;
    if b < n {
      assert batches[..n][..b] == batches[..b];
      ItemsOfPrefix(batches[..n], b);
      assert ItemsOf(batches[..n]) <= ItemsOf(batches);
    }
  }

  lemma EarlierGrows(batches: seq<Batch>, c: nat, b: nat)
    requires c < b <= |batches|
    ensures Earlier(batches, c) + |batches[c].items| <= Earlier(batches, b)
  {
    assert batches[..b][..c] == batches[..c];
    ItemsOfPrefix(batches[..b], c);
  }

  ghost predicate AtItsNumber(s: State, b: nat, i: nat)
    requires b < |s.batches| && i < |s.batches[b].items|
  {
    s.batches[b].items[i] == Earlier(s.batches, b) + i < |ItemsOf(s.batches)|
  }

  lemma PlaceInBatch(s: State, b: nat, i: nat)
    requires InOrder(s) && b < |s.batches| && i < |s.batches[b].items|
    ensures AtItsNumber(s, b, i)
  {
    ItemsOfPrefix(s.batches, b);
    var before, items := ItemsOf(s.batches[..b]), ItemsOf(s.batches);
    hide ItemsOf;
    var k := |before| + i;
    assert (before + s.batches[b].items)[k] == items[k];
    assert (items + s.queue)[k] == items[k];
  }

  /** Every held request stands at its own number: those of a batch behind those of earlier batches, the queue behind all batches. */
  lemma PlaceIsNumber(s: State)
    requires InOrder(s)
    ensures forall b, i :: 0 <= b < |s.batches| && 0 <= i < |s.batches[b].items| ==> AtItsNumber(s, b, i)
    ensures forall b, c :: 0 <= c < b < |s.batches| ==> Earlier(s.batches, c) + |s.batches[c].items| <= Earlier(s.batches, b)
    ensures forall j :: 0 <= j < |s.queue| ==> s.queue[j] == |ItemsOf(s.batches)| + j < |s.entries|
  {
    forall j | 0 <= j < |s.queue|
      ensures s.queue[j] == |ItemsOf(s.batches)| + j < |s.entries|
    {
      assert (ItemsOf(s.batches) + s.queue)[|ItemsOf(s.batches)| + j] == s.queue[j];
    }
    hide AtItsNumber, Earlier;
    forall b, i | 0 <= b < |s.batches| && 0 <= i < |s.batches[b].items|
      ensures AtItsNumber(s, b, i)
    {
      PlaceInBatch(s, b, i);
    }
    forall b, c | 0 <= c < b < |s.batches|
      ensures Earlier(s.batches, c) + |s.batches[c].items| <= Earlier(s.batches, b)
    {
      EarlierGrows(s.batches, c, b);
    }
  }

  /**
   Requests are numbered as they fail: the next one parked gets the next number. In every run the
   queue and the items of every retry call are in that order, without repetition, and what a call
   took is older than what is queued. A call replays its items from the first to the last, so of two
   requests it replays the one that failed earlier goes first.
   */
  lemma ReplayedInOrder(evs: seq<Event>, t: State)
    requires Run(Initial, evs, t)
    ensures forall i, j :: 0 <= i < j < |t.queue| ==> t.queue[i] < t.queue[j] < |t.entries|
    ensures forall b, i, j :: 0 <= b < |t.batches| && 0 <= i < j < |t.batches[b].items| ==> t.batches[b].items[i] < t.batches[b].items[j]
    ensures forall b, i, j :: 0 <= b < |t.batches| && 0 <= i < |t.batches[b].items| && 0 <= j < |t.queue| ==> t.batches[b].items[i] < t.queue[j]
    ensures forall config, failure, onLine :: Parks(config, failure, onLine) ==>
              var parked := Apply(t, FreshFailure(config, failure, onLine));
              parked.queue != [] && Last(parked.queue) == |t.entries| && parked.queue[..|parked.queue| - 1] == t.queue
  {
    RunKeepsOrder(Initial, evs, t);
    PlaceIsNumber(t);
    hide ItemsOf, Earlier, InOrder;
    forall b, i, j | 0 <= b < |t.batches| && 0 <= i < j < |t.batches[b].items|
      ensures t.batches[b].items[i] < t.batches[b].items[j]
    {
      assert AtItsNumber(t, b, i) && AtItsNumber(t, b, j);
    }
    forall b, i, j | 0 <= b < |t.batches| && 0 <= i < |t.batches[b].items| && 0 <= j < |t.queue|
      ensures t.batches[b].items[i] < t.queue[j]
    {
      assert AtItsNumber(t, b, i);
    }
  }

  // ----- The marker

  /** Queued requests and the unprocessed items of a batch carry the marker that keeps them from being parked twice. */
  ghost predicate Marked(s: State) {
    && (forall i :: 0 <= i < |s.queue| ==> s.queue[i] < |s.entries| && s.entries[s.queue[i]].config.queuedForOfflineRetry)
    && (forall b, i :: 0 <= b < |s.batches| && s.batches[b].next < i < |s.batches[b].items| ==>
          s.batches[b].items[i] < |s.entries| && s.entries[s.batches[b].items[i]].config.queuedForOfflineRetry)
  }

  lemma SettleKeepsMarks(s: State, b: nat, o: Outcome)
    requires InOrder(s) && Marked(s) && b < |s.batches| && Active(s.batches[b]) && s.batches[b].items[s.batches[b].next] < |s.entries|
    ensures Marked(Settle(s, b, o))
  {
    PlaceIsNumber(s);
    hide ItemsOf, Earlier, InOrder;
    var t, next := Settle(s, b, o), s.batches[b].next + 1;
    forall e | 0 <= e < |s.entries| && !(next < |s.batches[b].items| && e == s.batches[b].items[next])
      ensures t.entries[e].config == s.entries[e].config
    {
    }
    forall j | 0 <= j < |t.queue|
      ensures t.queue[j] < |t.entries| && t.entries[t.queue[j]].config.queuedForOfflineRetry
    {
      assert next < |s.batches[b].items| ==> AtItsNumber(s, b, next);
    }
    forall c, i | 0 <= c < |t.batches| && t.batches[c].next < i < |t.batches[c].items|
      ensures t.batches[c].items[i] < |t.entries| && t.entries[t.batches[c].items[i]].config.queuedForOfflineRetry
    {
      assert t.batches[c].items == s.batches[c].items && s.batches[c].next < i;
      assert AtItsNumber(s, c, i) && (next < |s.batches[b].items| ==> AtItsNumber(s, b, next));
    }
  }

  lemma SpliceKeepsMarks(s: State)
    requires InOrder(s) && Marked(s)
    ensures Marked(Splice(s))
  {
    PlaceIsNumber(s);
    hide ItemsOf, Earlier, InOrder;
    var t := Splice(s);
    forall b, i | 0 <= b < |t.batches| && t.batches[b].next < i < |t.batches[b].items|
      ensures t.batches[b].items[i] < |t.entries| && t.entries[t.batches[b].items[i]].config.queuedForOfflineRetry
    {
      if b < |s.batches| {
        assert t.batches[b] == s.batches[b] && AtItsNumber(s, b, i);
      }
    }
  }

  lemma EventKeepsMarks(s: State, ev: Event)
    requires Enabled(s, ev) && InOrder(s) && Marked(s)
    ensures Marked(Apply(s, ev))
  {
    hide Settle, Splice, InOrder;
    match ev
    case FreshFailure(config, failure, onLine) =>
    case Retry => SpliceKeepsMarks(s);
    case Replayed(b, reply) =>
      var e := s.batches[b].items[s.batches[b].next];
      match reply {
        case Answer(response) => HeardKeeps(s, b, e, Fulfilled(response));
        case Fault(failure, onLine) =>
          if !Parks(s.entries[e].config, failure, onLine) {
            HeardKeeps(s, b, e, Rejected(failure.error));
          }
      }
    case Woken(b) => SettleKeepsMarks(s, b, s.entries[s.batches[b].blockedOn.value].settlements[0]);
  }

  lemma HeardKeeps(s: State, b: nat, e: nat, o: Outcome)
    requires InOrder(s) && Marked(s) && b < |s.batches| && Active(s.batches[b]) && e == s.batches[b].items[s.batches[b].next] < |s.entries|
    ensures Marked(Settle(Heard(s, e, o), b, o))
  {
    assert InOrder(Heard(s, e, o)) && Marked(Heard(s, e, o)) by {
      hide ItemsOf;
    }
    SettleKeepsMarks(Heard(s, e, o), b, o);
  }

  lemma AwaitedIsUnmarked(s: State, b: nat)
    requires Inv(s) && b < |s.batches| && Active(s.batches[b])
    ensures s.batches[b].items[s.batches[b].next] < |s.entries|
    ensures !s.entries[s.batches[b].items[s.batches[b].next]].config.queuedForOfflineRetry
  {
    assert BatchOk(s, b);
  }

  /** In every run whatever waits to be replayed carries the marker, and what is being replayed does not. */
  lemma WaitingIsMarked(evs: seq<Event>, t: State, b: nat)
    requires Run(Initial, evs, t)
    ensures Marked(t)
    ensures b < |t.batches| && Active(t.batches[b]) ==>
              var e := t.batches[b].items[t.batches[b].next]; e < |t.entries| && !t.entries[e].config.queuedForOfflineRetry
  {
    hide Inv, Run;
    RunKeepsMarks(Initial, evs, t);
    InitiallyRight();
    RunKeeps(Initial, evs, t);
    if b < |t.batches| && Active(t.batches[b]) {
      AwaitedIsUnmarked(t, b);
    }
  }

  lemma InitiallyRight()
    ensures Inv(Initial)
  {
  }

  lemma {:induction false} RunKeepsMarks(s: State, evs: seq<Event>, t: State)
    requires InOrder(s) && Marked(s) && Run(s, evs, t)
    ensures Marked(t)
    decreases |evs|
  {
    if evs != [] {
      EventKeepsMarks(s, evs[0]);
      EventKeepsOrder(s, evs[0]);
      hide InOrder, Marked, Apply, Enabled;
      RunKeepsMarks(Apply(s, evs[0]), evs[1..], t);
    }
  }

  predicate IsFulfilled(entries: seq<Entry>, e: nat) {
    e < |entries| && entries[e].settlements != [] && entries[e].settlements[0].Fulfilled?
  }

  lemma {:induction false} AllFulfilledExactly(entries: seq<Entry>, items: seq<nat>)
    ensures FulfilledAmong(entries, items) <= |items|
    ensures FulfilledAmong(entries, items) == |items| <==> forall i :: 0 <= i < |items| ==> IsFulfilled(entries, items[i])
  {
    if items != [] {
      var init := items[..|items| - 1];
      AllFulfilledExactly(entries, init);
      assert forall i :: 0 <= i < |init| ==> init[i] == items[i];
    }
  }

  /** So it is the number of items replayed exactly when the network answered the last replay of each of them. */
  lemma ReturnsReplayedExactly(evs: seq<Event>, t: State, b: nat)
    requires Run(Initial, evs, t) && b < |t.batches| && !Active(t.batches[b])
    ensures Inv(t) && forall i :: 0 <= i < |t.batches[b].items| ==> t.batches[b].items[i] < |t.entries|
    ensures t.batches[b].succeeded == |t.batches[b].items|
       <==> forall i :: 0 <= i < |t.batches[b].items| ==>
              var reply := LastReply(t.entries, t.batches[b].items[i]); reply.Some? && reply.value.Fulfilled?
  {
    RunKeeps(Initial, evs, t);
    ReturnsSuccesses(evs, t, b);
    assert BatchOk(t, b);
    var items := t.batches[b].items;
    AllFulfilledExactly(t.entries, items);
    forall i | 0 <= i < |items|
      ensures IsFulfilled(t.entries, items[i])
         <==> var reply := LastReply(t.entries, items[i]); reply.Some? && reply.value.Fulfilled?
    {
      assert t.entries[items[i]].settlements != [];
      SettlesWithLastReply(t, items[i]);
      hide LastReply;
    }
  }

  /** One request, parked offline and replayed online to an error: one replayed, none counted. */
  lemma FailedReplayIsNotCounted(error: nat) returns (t: State)
    ensures var (config, offline) := (Config("get", false), Failure(false, true, error));
            Run(Initial, [FreshFailure(config, offline, false), Retry, Replayed(0, Fault(offline, true))], t)
    ensures |t.batches| == 1 && !Active(t.batches[0]) && |t.batches[0].items| == 1 && t.batches[0].succeeded == 0
  {
    var (config, offline) := (Config("get", false), Failure(false, true, error));
    var (e0, e2) := (FreshFailure(config, offline, false), Replayed(0, Fault(offline, true)));
    var s1 := Apply(Initial, e0);
    var s2 := Apply(s1, Retry);
    t := Apply(s2, e2);
    assert [e2][1..] == [] && Run(s2, [e2], t);
    assert [Retry, e2][1..] == [e2] && Run(s1, [Retry, e2], t);
    assert [e0, Retry, e2][1..] == [Retry, e2];
  }

  // ----- The waiting relation, and draining

  /** Batch `b` waits for an entry that batch `c` still holds. */
  ghost predicate WaitsFor(s: State, b: nat, c: nat) {
    b < |s.batches| && c < |s.batches| && s.batches[b].blockedOn.Some? && Copies(s.batches[c], s.batches[b].blockedOn.value) > 0
  }

  ghost predicate WaitPath(s: State, path: seq<nat>) {
    forall i :: 0 <= i < |path| - 1 ==> WaitsFor(s, path[i], path[i + 1])
  }

  /** Waiting is acyclic: a path of waiting batches never comes back to where it started. */
  lemma {:induction false} NoWaitCycle(s: State, path: seq<nat>)
    requires Inv(s) && |path| >= 2 && WaitPath(s, path)
    ensures path[0] < Last(path)
  {
    assert WaitsFor(s, path[0], path[1]);
    assert path[0] < path[1];
    if |path| > 2 {
      var rest := path[1..];
      forall i | 0 <= i < |rest| - 1
        ensures WaitsFor(s, rest[i], rest[i + 1])
      {
        assert WaitsFor(s, path[i + 1], path[i + 1 + 1]);
      }
      NoWaitCycle(s, rest);
    }
  }

  function Work(batches: seq<Batch>): nat {
    if batches == [] then 0
    else Work(batches[1..]) + if Active(batches[0]) then |batches[0].items| - batches[0].next else 0
  }

  lemma {:induction false} WorkStep(batches: seq<Batch>, b: nat, moved: Batch)
    requires b < |batches| && Active(batches[b]) && moved.items == batches[b].items && moved.next == batches[b].next + 1
    ensures Work(batches[b := moved]) == Work(batches) - 1
  {
    if b == 0 {
      assert batches[0 := moved][1..] == batches[1..];
    } else {
      assert batches[b := moved][1..] == batches[1..][b - 1 := moved];
      WorkStep(batches[1..], b - 1, moved);
    }
  }

  lemma {:induction false} NoWork(batches: seq<Batch>, e: nat)
    requires Work(batches) == 0
    ensures CopiesInBatches(batches, e) == 0
  {
    if batches != [] {
      NoWork(batches[1..], e);
    }
  }

  lemma {:induction false} LastActive(batches: seq<Batch>) returns (b: nat)
    requires Work(batches) > 0
    ensures b < |batches| && Active(batches[b])
    ensures forall c :: b < c < |batches| ==> !Active(batches[c])
  {
    if Work(batches[1..]) > 0 {
      var c := LastActive(batches[1..]);
      b := c + 1;
      forall d | b < d < |batches|
        ensures !Active(batches[d])
      {
        assert batches[d] == batches[1..][d - 1];
      }
    } else {
      b := 0;
      forall d | 0 < d < |batches|
        ensures !Active(batches[d])
      {
        NoWorkInactive(batches[1..], d - 1);
      }
    }
  }

  lemma {:induction false} NoWorkInactive(batches: seq<Batch>, b: nat)
    requires Work(batches) == 0 && b < |batches|
    ensures !Active(batches[b])
  {
    if b > 0 {
      NoWorkInactive(batches[1..], b - 1);
    }
  }

  /**
   The event does not fail offline: a replay is answered for good, a waiting batch resumes, a
   request fails in a way that is reported at once, or a retry call finds the queue empty.
   */
  ghost predicate Conclusive(s: State, ev: Event) {
    && Enabled(s, ev)
    && match ev
       case FreshFailure(config, failure, onLine) => !Parks(config, failure, onLine)
       case Retry => s.queue == []
       case Replayed(b, reply) =>
         reply.Fault? ==> !Parks(s.entries[s.batches[b].items[s.batches[b].next]].config, reply.failure, reply.onLine)
       case Woken(_) => true
  }

  /** The event settles an item. */
  predicate Settling(ev: Event) {
    ev.Replayed? || ev.Woken?
  }

  function SettlingSteps(evs: seq<Event>): nat {
    if evs == [] then 0 else SettlingSteps(evs[1..]) + if Settling(evs[0]) then 1 else 0
  }

  ghost predicate ConclusiveRun(s: State, evs: seq<Event>, t: State)
    decreases |evs|
  {
    if evs == [] then s == t
    else Conclusive(s, evs[0]) && ConclusiveRun(Apply(s, evs[0]), evs[1..], t)
  }

  lemma ConclusiveStep(s: State, ev: Event)
    requires Inv(s) && Conclusive(s, ev)
    ensures Settling(ev) ==> var t := Apply(s, ev); Work(t.batches) == Work(s.batches) - 1 && t.queue == s.queue
    ensures !Settling(ev) ==> Apply(s, ev) == s
  {
    if Settling(ev) {
      var b := ev.batch;
      WorkStep(s.batches, b, Apply(s, ev).batches[b]);
    }
  }

  /** With an empty queue, as long as any batch is suspended some event can still happen. */
  lemma NeverStuck(s: State) returns (b: nat)
    requires Inv(s) && s.queue == [] && Work(s.batches) > 0
    ensures Flying(s, b) || Wakeable(s, b)
  {
    b := LastActive(s.batches);
    assert BatchOk(s, b);
    if s.batches[b].blockedOn.Some? {
      var n := s.batches[b].blockedOn.value;
      if s.entries[n].settlements == [] {
        assert Holders(s, n) == 1;
        NoneLater(s, b, n);
        assert false;
      }
    }
  }

  lemma NoneLater(s: State, b: nat, n: nat)
    requires Inv(s) && b < |s.batches| && s.batches[b].blockedOn == Some(n)
    requires forall c :: b < c < |s.batches| ==> !Active(s.batches[c])
    ensures CopiesInBatches(s.batches, n) == 0
  {
    forall c | 0 <= c < |s.batches|
      ensures Copies(s.batches[c], n) == 0
    {
    }
    AllZero(s.batches, n);
  }

  lemma {:induction false} AllZero(batches: seq<Batch>, e: nat)
    requires forall c :: 0 <= c < |batches| ==> Copies(batches[c], e) == 0
    ensures CopiesInBatches(batches, e) == 0
  {
    if batches != [] {
      AllZero(batches[1..], e);
    }
  }

  /**
   Once replays stop failing offline, one further retry call drains everything: from any
   reachable state, after that call every run of conclusive events settles at most `Work`
   items, however many reported failures and idle retry calls come in between; as long as it
   has settled fewer it can go on; and when it has settled that many, every promise is settled
   and every batch finished.
   */
  lemma {:induction false} OneRetryDrains(s: State, evs: seq<Event>, t: State)
    requires Inv(s) && ConclusiveRun(Apply(s, Retry), evs, t)
    ensures SettlingSteps(evs) <= Work(Apply(s, Retry).batches)
    ensures SettlingSteps(evs) < Work(Apply(s, Retry).batches) ==> exists b: nat :: Flying(t, b) || Wakeable(t, b)
    ensures SettlingSteps(evs) == Work(Apply(s, Retry).batches) ==>
              && (forall e :: 0 <= e < |t.entries| ==> |t.entries[e].settlements| == 1)
              && (forall b :: 0 <= b < |t.batches| ==> !Active(t.batches[b]))
  {
    EventKeeps(s, Retry);
    Drains(Apply(s, Retry), evs, t);
  }

  lemma {:induction false} Drains(s: State, evs: seq<Event>, t: State)
    requires Inv(s) && s.queue == [] && ConclusiveRun(s, evs, t)
    ensures SettlingSteps(evs) <= Work(s.batches)
    ensures SettlingSteps(evs) < Work(s.batches) ==> exists b: nat :: Flying(t, b) || Wakeable(t, b)
    ensures SettlingSteps(evs) == Work(s.batches) ==>
              && (forall e :: 0 <= e < |t.entries| ==> |t.entries[e].settlements| == 1)
              && (forall b :: 0 <= b < |t.batches| ==> !Active(t.batches[b]))
    decreases |evs|
  {
    if evs != [] {
      ConclusiveStep(s, evs[0]);
      EventKeeps(s, evs[0]);
      Drains(Apply(s, evs[0]), evs[1..], t);
    } else if Work(s.batches) > 0 {
      var b := NeverStuck(s);
    } else {
      forall e | 0 <= e < |t.entries|
        ensures |t.entries[e].settlements| == 1
      {
        NoWork(s.batches, e);
        assert EntryOk(s.entries, e);
        assert Holders(s, e) == 0;
      }
      forall b | 0 <= b < |t.batches|
        ensures !Active(t.batches[b])
      {
        NoWorkInactive(t.batches, b);
      }
    }
  }

  // ----- The module as it runs: fields updated in place, one method an event

  class RetryClient {
    var pendingRetryQueue: seq<nat>
    var entries: seq<Entry>
    var batches: seq<Batch>

    ghost function Model(): State
      reads this
    {
      State(entries, pendingRetryQueue, batches)
    }

    ghost predicate Valid()
      reads this
    {
      Inv(Model())
    }

    constructor ()
      ensures Model() == Initial && Valid()
    {
      pendingRetryQueue, entries, batches := [], [], [];
    }

    method OnRejected(config: Config, failure: Failure, onLine: bool) returns (parkedAs: Option<nat>)
      requires Valid()
      modifies this
      ensures Valid() && Model() == Apply(old(Model()), FreshFailure(config, failure, onLine))
      ensures parkedAs == if Parks(config, failure, onLine) then Some(|old(entries)|) else None
    {
      EventKeeps(Model(), FreshFailure(config, failure, onLine));
      if Parks(config, failure, onLine) {
        parkedAs := Some(|entries|);
        pendingRetryQueue := pendingRetryQueue + [|entries|];
        entries := entries + [Entry(config.(queuedForOfflineRetry := true), [], None, None)];
      } else {
        parkedAs := None;
      }
    }

    method GetPendingRetryCount() returns (n: nat)
      ensures n == |pendingRetryQueue|
    {
      n := |pendingRetryQueue|;
    }

    /** Starts a retry call; its suspended frame is the last batch, unless the queue was empty. */
    method RetryPendingRequests() returns (returned: Option<nat>)
      requires Valid()
      modifies this
      ensures Valid() && Model() == Apply(old(Model()), Retry)
      ensures returned == if old(pendingRetryQueue) == [] then Some(0) else None
    {
      EventKeeps(Model(), Retry);
      if |pendingRetryQueue| == 0 {
        return Some(0);
      }
      var items := pendingRetryQueue;
      pendingRetryQueue := [];
      entries := entries[items[0] := entries[items[0]].(config := entries[items[0]].config.(queuedForOfflineRetry := false))];
      batches := batches + [Batch(items, 0, None, 0)];
      returned := None;
    }

    method OnReplayed(b: nat, reply: Reply)
      requires Valid() && Flying(Model(), b)
      modifies this
      ensures Valid() && Model() == Apply(old(Model()), Replayed(b, reply))
    {
      EventKeeps(Model(), Replayed(b, reply));
      var e := batches[b].items[batches[b].next];
      match reply
      case Answer(response) =>
        entries := entries[e := entries[e].(reply := Some(Fulfilled(response)))];
        SettleAwaited(b, Fulfilled(response));
      case Fault(failure, onLine) =>
        if Parks(entries[e].config, failure, onLine) {
          var n := |entries|;
          entries := entries[e := entries[e].(requeuedAs := Some(n))] + [Entry(entries[e].config.(queuedForOfflineRetry := true), [], None, None)];
          pendingRetryQueue := pendingRetryQueue + [n];
          batches := batches[b := batches[b].(blockedOn := Some(n))];
        } else {
          entries := entries[e := entries[e].(reply := Some(Rejected(failure.error)))];
          SettleAwaited(b, Rejected(failure.error));
        }
    }

    method OnWoken(b: nat)
      requires Valid() && Wakeable(Model(), b)
      modifies this
      ensures Valid() && Model() == Apply(old(Model()), Woken(b))
    {
      EventKeeps(Model(), Woken(b));
      SettleAwaited(b, entries[batches[b].blockedOn.value].settlements[0]);
    }

    /** The loop body after `await`: resolve or reject the item, count a success, start the next item. */
    method SettleAwaited(b: nat, o: Outcome)
      requires b < |batches| && Active(batches[b]) && batches[b].items[batches[b].next] < |entries|
      modifies this
      ensures Model() == Settle(old(Model()), b, o)
    {
      var batch := batches[b];
      var e := batch.items[batch.next];
      entries := entries[e := entries[e].(settlements := entries[e].settlements + [o])];
      var succeeded := batch.succeeded;
      if o.Fulfilled? {
        succeeded := succeeded + 1;
      }
      var next := batch.next + 1;
      if next < |batch.items| && batch.items[next] < |entries| {
        var item := batch.items[next];
        entries := entries[item := entries[item].(config := entries[item].config.(queuedForOfflineRetry := false))];
      }
      batches := batches[b := Batch(batch.items, next, None, succeeded)];
    }
  }
}
