/**
 The poll loop of apps/chat-sim/src/usePolling.js against the message log of
 apps/api/src/services/simMessage.service.js, over one lifetime of the hook.

 A poll asks for the messages after the `since` cursor. At most one poll is in flight; when it
 ends, in success or failure, the next one is scheduled. Bringing the tab to the foreground
 polls at once. Local messages may be added at any time. Nothing is assumed of the timestamps of
 the log: they may repeat, and a message may be logged behind a later one.
 */
module ChatPolling {
  import opened ChatMerge
  import opened Prelude
  import opened StableSort

  /** `seen`: how much of the log the answer was read from. */
  datatype Flight = Resting | Sent | Served(batch: seq<Delivery>, seen: nat)

  /** The server's log and the hook's refs and state; `timer` is the armed delay in milliseconds. */
  datatype Hook = Hook(
    log: seq<Delivery>, list: seq<Message>, since: Option<nat>,
    flight: Flight, timer: Option<nat>, consecutiveErrors: nat, hidden: bool)

  datatype Event =
    | ServerAppends(d: Delivery)
    | LocalAppends(m: Message)
    | Hides
    | Foreground
    | TimerFires
    | Serves(batch: seq<Delivery>)
    | Answers
    | Fails

  const ACTIVE_POLL_INTERVAL_MS: nat := 3000
  const BACKGROUND_POLL_INTERVAL_MS: nat := 30000
  const MAX_BACKOFF_MS: nat := 30000

  function Pow2(n: nat): (p: nat)
    ensures p >= 1
  {
    if n == 0 then 1 else 2 * Pow2(n - 1)
  }

  function CalculateNextInterval(isHidden: bool, consecutiveErrors: nat): nat {
    if isHidden then BACKGROUND_POLL_INTERVAL_MS
    else if consecutiveErrors > 0 then
      var backoff := ACTIVE_POLL_INTERVAL_MS * Pow2(consecutiveErrors);
      if backoff <= MAX_BACKOFF_MS then backoff else MAX_BACKOFF_MS
    else ACTIVE_POLL_INTERVAL_MS
  }

  /** The delay lies between the active interval and the cap, and more errors never shorten it. */
  lemma {:induction false} IntervalBacksOff(isHidden: bool, errors: nat, more: nat)
    requires errors <= more
    ensures ACTIVE_POLL_INTERVAL_MS <= CalculateNextInterval(isHidden, errors) <= CalculateNextInterval(isHidden, more) <= MAX_BACKOFF_MS
    decreases more - errors
  {
    if errors < more {
      IntervalBacksOff(isHidden, errors + 1, more);
    }
  }

  /** A hidden tab polls every 30 seconds, a visible one every 3, doubled with each error up to the cap. */
  lemma {:induction false} IntervalIsExact(errors: nat)
    ensures CalculateNextInterval(true, errors) == 30000 && CalculateNextInterval(false, 0) == 3000
    ensures CalculateNextInterval(false, errors + 1)
         == if 2 * CalculateNextInterval(false, errors) <= 30000 then 2 * CalculateNextInterval(false, errors) else 30000
  {
  }

  // ----- The server

  predicate Newer(d: Delivery, since: Option<nat>) {
    since.None? || d.createdAt > since.value
  }

  /** `createdAt: { gt: since }`. */
  function ListMessagesSince(log: seq<Delivery>, since: Option<nat>): seq<Delivery> {
    if log == [] then []
    else ListMessagesSince(log[..|log| - 1], since) + if Newer(log[|log| - 1], since) then [log[|log| - 1]] else []
  }

  /** `orderBy: { createdAt: 'asc' }`, which leaves open how equal timestamps are ordered. */
  predicate Ascending(batch: seq<Delivery>) {
    forall i, j :: 0 <= i < j < |batch| ==> batch[i].createdAt <= batch[j].createdAt
  }

  // ----- The hook

  function StartPoll(h: Hook): Hook {
    if h.flight.Resting? then h.(flight := Sent) else h
  }

  function ScheduleNext(h: Hook): Hook {
    h.(timer := Some(CalculateNextInterval(h.hidden, h.consecutiveErrors)))
  }

  predicate Enabled(h: Hook, ev: Event) {
    match ev
    case LocalAppends(m) => m.id.Local? && m.createdAt.None?
    case TimerFires => h.timer.Some?
    case Serves(batch) => h.flight.Sent? && Ascending(batch) && multiset(batch) == multiset(ListMessagesSince(h.log, h.since))
    case Answers => h.flight.Served?
    case Fails => !h.flight.Resting?
    case _ => true
  }

  function Apply(h: Hook, ev: Event): Hook
    requires Enabled(h, ev)
  {
    match ev
    case ServerAppends(d) => h.(log := h.log + [d])
    case LocalAppends(m) => h.(list := h.list + [m])
    case Hides => h.(hidden := true)
    case Foreground => StartPoll(h.(hidden := false, timer := None))
    case TimerFires => StartPoll(h.(timer := None))
    case Serves(batch) => h.(flight := Served(batch, |h.log|))
    case Answers =>
      var batch := h.flight.batch;
      var sorted := InTimeOrder(batch);
      var next := h.(flight := Resting, consecutiveErrors := 0);
      SortedIsSame(batch);
      ScheduleNext(if batch == [] then next
               else next.(since := Some(sorted[|sorted| - 1].createdAt), list := MergeSorted(h.list, sorted)))
    case Fails => ScheduleNext(h.(flight := Resting, consecutiveErrors := h.consecutiveErrors + 1))
  }

  ghost predicate Run(h: Hook, evs: seq<Event>, end: Hook)
    decreases |evs|
  {
    if evs == [] then h == end
    else Enabled(h, evs[0]) && Run(Apply(h, evs[0]), evs[1..], end)
  }

  /** Mounting polls at once. */
  function Mounted(log: seq<Delivery>): Hook {
    StartPoll(Hook(log, [], None, Resting, None, 0, false))
  }

  // ----- What has been delivered

  /** The log up to the cursor. */
  function Covered(log: seq<Delivery>, since: Option<nat>): seq<Delivery> {
    if log == [] then []
    else Covered(log[..|log| - 1], since) + if Newer(log[|log| - 1], since) then [] else [log[|log| - 1]]
  }

  /** The log between two cursors. */
  function Between(log: seq<Delivery>, since: Option<nat>, until: Option<nat>): seq<Delivery> {
    Covered(ListMessagesSince(log, since), until)
  }

  /** The cursor after a batch: its last timestamp, or the old cursor for an empty batch. */
  function CursorAfter(batch: seq<Delivery>, since: Option<nat>): Option<nat> {
    if batch == [] then since else Some(batch[|batch| - 1].createdAt)
  }

  /** What was logged after the answer on its way was read. */
  function Unseen(h: Hook): seq<Delivery>
    requires h.flight.Served?
  {
    if h.flight.seen <= |h.log| then h.log[h.flight.seen..] else []
  }

  /**
   The server messages that an event puts behind the cursor without showing them: one logged with a
   timestamp the cursor has reached; those logged while an answer was on its way that its last
   timestamp reaches; and those of the answer that the merge drops.
   */
  function Lost(h: Hook, ev: Event): seq<Delivery>
    requires Enabled(h, ev)
  {
    match ev
    case ServerAppends(d) => if Newer(d, h.since) then [] else [d]
    case Answers =>
      var batch := h.flight.batch;
      Between(Unseen(h), h.since, CursorAfter(batch, h.since)) + Dropped(h.list, batch)
    case _ => []
  }

  ghost function LostIn(h: Hook, evs: seq<Event>, end: Hook): seq<Delivery>
    requires Run(h, evs, end)
    decreases |evs|
  {
    if evs == [] then [] else Lost(h, evs[0]) + LostIn(Apply(h, evs[0]), evs[1..], end)
  }

  ghost predicate Inv(h: Hook) {
    && IdsMatch(h.list)
    && (h.flight.Resting? <==> h.timer.Some?)
    && (h.flight.Served? ==>
          && h.flight.seen <= |h.log| && Ascending(h.flight.batch)
          && multiset(h.flight.batch) == multiset(ListMessagesSince(h.log[..h.flight.seen], h.since)))
  }

  /** Each message behind the cursor stands in the list or is one of the lost ones. */
  ghost predicate Accounted(h: Hook, lost: multiset<Delivery>) {
    Stamped(h.list) + lost == multiset(Covered(h.log, h.since))
  }

  // ----- The log and its cursors

  lemma {:induction false} SinceExactly(log: seq<Delivery>, since: Option<nat>)
    ensures forall d :: d in ListMessagesSince(log, since) <==> d in log && Newer(d, since)
  {
    if log != [] {
      SinceExactly(log[..|log| - 1], since);
      assert log == log[..|log| - 1] + [log[|log| - 1]];
    }
  }

  lemma {:induction false} CoveredExactly(log: seq<Delivery>, since: Option<nat>)
    ensures forall d :: d in Covered(log, since) <==> d in log && !Newer(d, since)
  {
    if log != [] {
      CoveredExactly(log[..|log| - 1], since);
      assert log == log[..|log| - 1] + [log[|log| - 1]];
    }
  }

  lemma {:induction false} CoveredAppend(a: seq<Delivery>, b: seq<Delivery>, since: Option<nat>)
    ensures Covered(a + b, since) == Covered(a, since) + Covered(b, since)
  {
    if b == [] {
      assert a + b == a;
    } else {
      var n := |b| - 1;
      assert (a + b)[..|a + b| - 1] == a + b[..n];
      CoveredAppend(a, b[..n], since);
    }
  }

  lemma CoveredOne(d: Delivery, since: Option<nat>)
    ensures Covered([d], since) == if Newer(d, since) then [] else [d]
  {
    assert [d][..0] == [];
  }

  /** One more logged message is covered before, comes between, or is not reached. */
  lemma OneMore(all: seq<Delivery>, before: seq<Delivery>, between: seq<Delivery>, d: Delivery, behind: bool, reached: bool)
    requires multiset(all) == multiset(before) + multiset(between) && (behind ==> reached)
    ensures multiset(all + if reached then [d] else [])
         == multiset(before + if behind then [d] else []) + multiset(between + if reached && !behind then [d] else [])
  {
  }

  /** Moving the cursor on covers what lies between. */
  lemma {:induction false} CoveredGrows(log: seq<Delivery>, since: Option<nat>, until: Option<nat>)
    requires since.Some? ==> until.Some? && since.value <= until.value
    ensures multiset(Covered(log, until)) == multiset(Covered(log, since)) + multiset(Between(log, since, until))
  {
    hide ListMessagesSince, Between;
    if log == [] {
      NothingBetween(since, until);
    } else {
      var init, last := log[..|log| - 1], log[|log| - 1];
      CoveredGrows(init, since, until);
      LastBetween(log, since, until);
      var behind, reached := !Newer(last, since), !Newer(last, until);
      assert behind ==> reached;
      OneMore(Covered(init, until), Covered(init, since), Between(init, since, until), last, behind, reached);
      assert Covered(log, until) == Covered(init, until) + if reached then [last] else [];
      assert Covered(log, since) == Covered(init, since) + if behind then [last] else [];
      assert Between(log, since, until) == Between(init, since, until) + if reached && !behind then [last] else [];
    }
  }

  lemma NothingBetween(since: Option<nat>, until: Option<nat>)
    ensures Between([], since, until) == []
  {
  }

  lemma LastBetween(log: seq<Delivery>, since: Option<nat>, until: Option<nat>)
    requires log != []
    ensures var (init, last) := (log[..|log| - 1], log[|log| - 1]);
            Between(log, since, until) == Between(init, since, until) + if Newer(last, since) && !Newer(last, until) then [last] else []
  {
    var (init, last) := (log[..|log| - 1], log[|log| - 1]);
    CoveredOne(last, until);
    CoveredAppend(ListMessagesSince(init, since), if Newer(last, since) then [last] else [], until);
  }

  /** If nothing is newer than the cursor, everything is covered. */
  lemma {:induction false} CoversAll(log: seq<Delivery>, since: Option<nat>)
    requires forall d :: d in log ==> !Newer(d, since)
    ensures Covered(log, since) == log
  {
    if log != [] {
      var n := |log| - 1;
      assert log == log[..n] + [log[n]];
      CoversAll(log[..n], since);
    }
  }

  lemma {:induction false} CoversNone(log: seq<Delivery>, since: Option<nat>)
    ensures Covered(log, since) == [] <==> forall d :: d in log ==> Newer(d, since)
  {
    if log != [] {
      var n := |log| - 1;
      assert log == log[..n] + [log[n]];
      CoversNone(log[..n], since);
    }
  }

  /** A batch in time order is not changed by sorting. */
  lemma AscendingIsSorted(batch: seq<Delivery>)
    requires Ascending(batch)
    ensures InTimeOrder(batch) == batch
  {
    StableSortIsUnique(Earlier(), batch, batch);
  }

  lemma SameMembers(a: seq<Delivery>, b: seq<Delivery>)
    requires multiset(a) == multiset(b)
    ensures forall d :: d in a <==> d in b
  {
    forall d
      ensures d in a <==> d in b
    {
      SameElements(a, b, d);
    }
  }

  /** What an answer holds: logged messages newer than the cursor, none newer than the cursor it leaves. */
  lemma BatchIsNewer(h: Hook)
    requires Inv(h) && h.flight.Served?
    ensures forall d :: d in h.flight.batch <==> d in h.log[..h.flight.seen] && Newer(d, h.since)
    ensures forall d :: d in h.flight.batch ==> !Newer(d, CursorAfter(h.flight.batch, h.since))
  {
    var read := h.log[..h.flight.seen];
    SinceExactly(read, h.since);
    SameMembers(h.flight.batch, ListMessagesSince(read, h.since));
  }

  lemma CursorAdvances(h: Hook)
    requires Inv(h) && h.flight.Served?
    ensures var until := CursorAfter(h.flight.batch, h.since);
            h.since.Some? ==> until.Some? && h.since.value <= until.value
  {
    var batch := h.flight.batch;
    BatchIsNewer(h);
    assert batch != [] ==> batch[|batch| - 1] in batch;
  }

  lemma Regroup4(a: multiset<Delivery>, b: multiset<Delivery>, c: multiset<Delivery>, d: multiset<Delivery>)
    ensures (a + b) + (c + d) == (a + c) + b + d
  {
  }

  /** What an answer covers: its batch, and of the messages logged since it was read those the cursor passes. */
  lemma AnswerCovers(h: Hook)
    requires Inv(h) && h.flight.Served?
    ensures var until := CursorAfter(h.flight.batch, h.since);
            multiset(Covered(h.log, until))
              == multiset(Covered(h.log, h.since)) + multiset(h.flight.batch) + multiset(Between(Unseen(h), h.since, until))
  {
    var read, unseen := h.log[..h.flight.seen], Unseen(h);
    var until := CursorAfter(h.flight.batch, h.since);
    var asked := ListMessagesSince(read, h.since);
    BatchIsNewer(h);
    CursorAdvances(h);
    SameMembers(h.flight.batch, asked);
    hide CursorAfter, ListMessagesSince, Covered, Inv, Newer;
    assert h.log == read + unseen;
    CoveredAppend(read, unseen, until);
    CoveredAppend(read, unseen, h.since);
    CoveredGrows(read, h.since, until);
    CoversAll(asked, until);
    CoveredGrows(unseen, h.since, until);
    Regroup4(multiset(Covered(read, h.since)), multiset(asked), multiset(Covered(unseen, h.since)), multiset(Between(unseen, h.since, until)));
  }

  /** The hook's own sort finds the answer sorted. */
  lemma Answered(h: Hook)
    requires Inv(h) && h.flight.Served?
    ensures var after := Apply(h, Answers);
            && after.log == h.log && after.list == MergeSorted(h.list, h.flight.batch)
            && after.since == CursorAfter(h.flight.batch, h.since) && after.flight.Resting? && after.timer.Some?
  {
    AscendingIsSorted(h.flight.batch);
    assert h.flight.batch == [] ==> MergeSorted(h.list, h.flight.batch) == h.list;
  }

  lemma Regather(stamped: multiset<Delivery>, lost: multiset<Delivery>, covered: multiset<Delivery>, batch: multiset<Delivery>,
                 after: multiset<Delivery>, dropped: multiset<Delivery>, passed: multiset<Delivery>)
    requires stamped + lost == covered && after + dropped == stamped + batch
    ensures after + (lost + (passed + dropped)) == covered + batch + passed
  {
    forall d
      ensures (after + (lost + (passed + dropped)))[d] == (covered + batch + passed)[d]
    {
      assert (stamped + lost)[d] == covered[d] && (after + dropped)[d] == (stamped + batch)[d];
    }
  }

  lemma AnswerAccounts(h: Hook, lost: multiset<Delivery>)
    requires Inv(h) && h.flight.Served? && Accounted(h, lost)
    ensures Accounted(Apply(h, Answers), lost + multiset(Lost(h, Answers)))
  {
    hide Stamped, Covered, Dropped, MergeSorted, Between, Apply, Unseen, CursorAfter, Inv;
    var batch := h.flight.batch;
    var passed := Between(Unseen(h), h.since, CursorAfter(batch, h.since));
    Answered(h);
    MergeAccounts(h.list, batch);
    AnswerCovers(h);
    Regather(Stamped(h.list), lost, multiset(Covered(h.log, h.since)), multiset(batch),
             Stamped(MergeSorted(h.list, batch)), multiset(Dropped(h.list, batch)), multiset(passed));
    assert Lost(h, Answers) == passed + Dropped(h.list, batch);
  }

  lemma LocalAppendAccounts(h: Hook, m: Message)
    requires Inv(h) && Enabled(h, LocalAppends(m))
    ensures IdsMatch(h.list + [m]) && Stamped(h.list + [m]) == Stamped(h.list)
  {
    assert (h.list + [m])[..|h.list|] == h.list;
  }

  lemma ServerAppendKeeps(h: Hook, d: Delivery)
    requires Inv(h)
    ensures Inv(Apply(h, ServerAppends(d)))
    ensures Covered(h.log + [d], h.since) == Covered(h.log, h.since) + Lost(h, ServerAppends(d))
  {
    assert (h.log + [d])[..|h.log|] == h.log;
    if h.flight.Served? {
      assert (h.log + [d])[..h.flight.seen] == h.log[..h.flight.seen];
    }
  }

  lemma EventKeeps(h: Hook, ev: Event)
    requires Inv(h) && Enabled(h, ev)
    ensures Inv(Apply(h, ev))
  {
    match ev
    case ServerAppends(d) => ServerAppendKeeps(h, d);
    case Answers =>
      Answered(h);
      MergeKeepsIds(h.list, h.flight.batch);
    case LocalAppends(m) => LocalAppendAccounts(h, m);
    case Serves(batch) => assert h.log[..|h.log|] == h.log;
    case _ =>
  }

  /** No event makes a message appear or disappear unaccounted for. */
  lemma EventAccounts(h: Hook, ev: Event, lost: multiset<Delivery>)
    requires Inv(h) && Enabled(h, ev) && Accounted(h, lost)
    ensures Accounted(Apply(h, ev), lost + multiset(Lost(h, ev)))
  {
    match ev
    case ServerAppends(d) => ServerAppendKeeps(h, d);
    case Answers => AnswerAccounts(h, lost);
    case LocalAppends(m) => LocalAppendAccounts(h, m);
    case _ =>
  }

  lemma {:induction false} RunAccounts(h: Hook, evs: seq<Event>, end: Hook, lost: multiset<Delivery>)
    requires Inv(h) && Accounted(h, lost) && Run(h, evs, end)
    ensures Inv(end) && Accounted(end, lost + multiset(LostIn(h, evs, end)))
    decreases |evs|
  {
    if evs != [] {
      var now := multiset(Lost(h, evs[0]));
      EventKeeps(h, evs[0]);
      EventAccounts(h, evs[0], lost);
      RunAccounts(Apply(h, evs[0]), evs[1..], end, lost + now);
      hide Inv, Lost, Apply, Covered, Stamped;
      var later := multiset(LostIn(Apply(h, evs[0]), evs[1..], end));
      assert (lost + now) + later == lost + (now + later);
    }
  }

  lemma MountedAccounts(log: seq<Delivery>)
    ensures Inv(Mounted(log)) && Accounted(Mounted(log), multiset{})
  {
    CoversNone(log, None);
  }

  // ----- When nothing is lost

  /**
   What makes an event lose a message, read off the state before it: a timestamp that the cursor has
   reached; a message logged since the answer on its way was read that the answer's last timestamp
   reaches; a message of the answer that is not kept by the merge.
   */
  ghost predicate Loses(h: Hook, ev: Event)
    requires Enabled(h, ev)
  {
    match ev
    case ServerAppends(d) => !Newer(d, h.since)
    case Answers =>
      var batch := h.flight.batch;
      || (exists d :: d in Unseen(h) && Newer(d, h.since) && !Newer(d, CursorAfter(batch, h.since)))
      || (exists j :: 0 <= j < |batch| && !Kept(h.list, batch, j))
    case _ => false
  }

  ghost predicate LosesNothing(h: Hook, evs: seq<Event>, end: Hook)
    requires Run(h, evs, end)
    decreases |evs|
  {
    evs == [] || (!Loses(h, evs[0]) && LosesNothing(Apply(h, evs[0]), evs[1..], end))
  }

  lemma LosesExactly(h: Hook, ev: Event)
    requires Inv(h) && Enabled(h, ev)
    ensures Lost(h, ev) == [] <==> !Loses(h, ev)
  {
    if ev.Answers? {
      var batch := h.flight.batch;
      var until := CursorAfter(batch, h.since);
      DroppedExactly(h.list, batch);
      SinceExactly(Unseen(h), h.since);
      CoversNone(ListMessagesSince(Unseen(h), h.since), until);
      hide Kept, Dropped, Unseen, ListMessagesSince, Covered, CursorAfter, Inv;
      assert Lost(h, ev) == Between(Unseen(h), h.since, until) + Dropped(h.list, batch);
    }
  }

  lemma {:induction false} LosesNothingExactly(h: Hook, evs: seq<Event>, end: Hook)
    requires Inv(h) && Run(h, evs, end)
    ensures LostIn(h, evs, end) == [] <==> LosesNothing(h, evs, end)
    decreases |evs|
  {
    if evs != [] {
      LosesExactly(h, evs[0]);
      EventKeeps(h, evs[0]);
      LosesNothingExactly(Apply(h, evs[0]), evs[1..], end);
      hide Lost, Loses, Inv, Apply;
    }
  }

  /**
   Every run from mounting, whatever the timestamps and the order of server and local messages,
   polls, failures and focus changes. The server messages up to the cursor are those that stand in
   the list, each once with its own text, sender and timestamp, and those lost on the way, so nothing
   else is acknowledged and nothing twice; all of them stand in the list exactly when no event loses
   one; and always exactly one of the next timer and the one poll is pending.
   */
  lemma {:induction false} EveryRunDeliversExactly(log: seq<Delivery>, evs: seq<Event>, end: Hook)
    requires Run(Mounted(log), evs, end)
    ensures Stamped(end.list) + multiset(LostIn(Mounted(log), evs, end)) == multiset(Covered(end.log, end.since))
    ensures Stamped(end.list) == multiset(Covered(end.log, end.since)) <==> LosesNothing(Mounted(log), evs, end)
    ensures end.flight.Resting? <==> end.timer.Some?
  {
    MountedAccounts(log);
    RunAccounts(Mounted(log), evs, end, multiset{});
    LosesNothingExactly(Mounted(log), evs, end);
    hide Stamped, Covered, LostIn, LosesNothing, Run, Mounted;
    NoneMissing(Stamped(end.list), LostIn(Mounted(log), evs, end), multiset(Covered(end.log, end.since)));
  }

  lemma NoneMissing(stamped: multiset<Delivery>, lost: seq<Delivery>, covered: multiset<Delivery>)
    requires stamped + multiset(lost) == covered
    ensures stamped == covered <==> lost == []
  {
    if lost != [] {
      assert lost[0] in multiset(lost);
      assert covered[lost[0]] == stamped[lost[0]] + multiset(lost)[lost[0]];
    }
  }

  /** An answer ends the backing off, a failure goes on with it, and both arm the next poll. */
  lemma PollEndsExactly(h: Hook)
    requires h.flight.Served?
    ensures Apply(h, Answers).consecutiveErrors == 0 && Apply(h, Answers).timer == Some(if h.hidden then 30000 else 3000)
    ensures Apply(h, Fails).consecutiveErrors == h.consecutiveErrors + 1
    ensures Apply(h, Fails).timer == Some(CalculateNextInterval(h.hidden, h.consecutiveErrors + 1))
    ensures Apply(h, Fails).list == h.list && Apply(h, Fails).since == h.since
  {
  }

  /** Mounting polls at once in a visible tab without errors; hiding the tab slows the next polls down, showing it polls at once. */
  lemma VisibilityTurns(h: Hook, log: seq<Delivery>)
    ensures Mounted(log).flight.Sent? && Mounted(log).timer.None? && !Mounted(log).hidden && Mounted(log).consecutiveErrors == 0
    ensures Apply(h, Hides) == h.(hidden := true)
    ensures !Apply(h, Foreground).hidden && Apply(h, Foreground).timer.None? && !Apply(h, Foreground).flight.Resting?
  {
  }

  // ----- Strictly increasing timestamps lose nothing

  ghost predicate Increasing(log: seq<Delivery>) {
    forall i, j :: 0 <= i < j < |log| ==> log[i].createdAt < log[j].createdAt
  }

  /** The cursor is a timestamp of the log, and the timestamps in the list are distinct. */
  ghost predicate InStep(h: Hook) {
    && Increasing(h.log) && DistinctStamps(h.list) && Accounted(h, multiset{})
    && (h.since.Some? ==> exists d :: d in h.log && d.createdAt == h.since.value)
  }

  lemma {:induction false} RunExtendsLog(h: Hook, evs: seq<Event>, end: Hook)
    requires Run(h, evs, end)
    ensures h.log <= end.log
    decreases |evs|
  {
    if evs != [] {
      RunExtendsLog(Apply(h, evs[0]), evs[1..], end);
    }
  }

  lemma {:induction false} AskedIsIncreasing(log: seq<Delivery>, since: Option<nat>)
    requires Increasing(log)
    ensures Increasing(ListMessagesSince(log, since))
  {
    if log != [] {
      var n := |log| - 1;
      AskedIsIncreasing(log[..n], since);
      SinceExactly(log[..n], since);
      assert forall d :: d in log[..n] ==> d.createdAt < log[n].createdAt;
      var asked := ListMessagesSince(log[..n], since);
      assert forall i :: 0 <= i < |asked| ==> asked[i] in asked;
    }
  }

  lemma {:induction false} StampedHas(list: seq<Message>, i: nat)
    requires i < |list| && list[i].createdAt.Some?
    ensures Delivery(list[i].text, list[i].sender, list[i].createdAt.value) in Stamped(list)
  {
    var n := |list| - 1;
    if i < n {
      StampedHas(list[..n], i);
    }
  }

  /** An acknowledged message is not newer than the cursor. */
  lemma StampsAreCovered(h: Hook, i: nat)
    requires Accounted(h, multiset{}) && i < |h.list| && h.list[i].createdAt.Some?
    ensures h.since.Some? && h.list[i].createdAt.value <= h.since.value
  {
    var shown := Delivery(h.list[i].text, h.list[i].sender, h.list[i].createdAt.value);
    StampedHas(h.list, i);
    CoveredExactly(h.log, h.since);
    hide Stamped, Covered;
    assert (Stamped(h.list) + multiset{})[shown] == multiset(Covered(h.log, h.since))[shown];
    assert shown in Covered(h.log, h.since);
  }

  /** What an answer brings is fresh: none of it is in the list, and no two have one timestamp. */
  lemma AnswerIsFresh(h: Hook)
    requires Inv(h) && InStep(h) && h.flight.Served?
    ensures Fresh(h.list, h.flight.batch) && DistinctDeliveries(h.flight.batch)
  {
    var read, batch := h.log[..h.flight.seen], h.flight.batch;
    BatchIsNewer(h);
    AskedIsIncreasing(read, h.since);
    SameIsDistinct(ListMessagesSince(read, h.since), batch);
    hide ListMessagesSince, Covered, Stamped;
    forall d | d in batch
      ensures !Known(h.list, d.createdAt)
    {
      forall i | 0 <= i < |h.list| && h.list[i].createdAt.Some?
        ensures h.list[i].createdAt != Some(d.createdAt)
      {
        StampsAreCovered(h, i);
      }
    }
  }

  /** Fresh, distinct deliveries are all kept. */
  lemma FreshAreKept(list: seq<Message>, batch: seq<Delivery>)
    requires Fresh(list, batch) && DistinctDeliveries(batch)
    ensures forall j :: 0 <= j < |batch| ==> Kept(list, batch, j)
  {
    hide Known, CountDelivered, CountUnclaimed;
    forall j | 0 <= j < |batch|
      ensures Kept(list, batch, j)
    {
      assert batch[j] in batch;
    }
  }

  /** Nothing is logged behind the cursor, and nothing on the way is passed. */
  lemma NonePassed(h: Hook)
    requires Inv(h) && InStep(h) && h.flight.Served?
    ensures forall d :: d in Unseen(h) && Newer(d, h.since) ==> Newer(d, CursorAfter(h.flight.batch, h.since))
  {
    var batch := h.flight.batch;
    BatchIsNewer(h);
    if batch != [] {
      var last := batch[|batch| - 1];
      assert last in h.log[..h.flight.seen];
      var i :| 0 <= i < h.flight.seen && h.log[i] == last;
      LaterIsNewer(h.log, i, h.flight.seen);
    }
  }

  lemma LaterIsNewer(log: seq<Delivery>, i: nat, n: nat)
    requires Increasing(log) && i < n <= |log|
    ensures forall d :: d in log[n..] ==> log[i].createdAt < d.createdAt
  {
    forall j | 0 <= j < |log[n..]|
      ensures log[i].createdAt < log[n..][j].createdAt
    {
      assert log[n..][j] == log[n + j];
    }
  }

  lemma AllAccounted(h: Hook, ev: Event)
    requires Inv(h) && Enabled(h, ev) && Accounted(h, multiset{}) && !Loses(h, ev)
    ensures Accounted(Apply(h, ev), multiset{})
  {
    hide Stamped, Covered, Loses, Apply, Inv;
    LosesExactly(h, ev);
    EventAccounts(h, ev, multiset{});
    assert multiset(Lost(h, ev)) == multiset{};
  }

  lemma StepLosesNothing(h: Hook, ev: Event)
    requires Inv(h) && InStep(h) && Enabled(h, ev) && Increasing(Apply(h, ev).log)
    ensures !Loses(h, ev)
  {
    match ev
    case ServerAppends(d) =>
      if h.since.Some? {
        var e :| e in h.log && e.createdAt == h.since.value;
        var i :| 0 <= i < |h.log| && h.log[i] == e;
        assert (h.log + [d])[i] == e && (h.log + [d])[|h.log|] == d;
      }
    case Answers =>
      AnswerIsFresh(h);
      FreshAreKept(h.list, h.flight.batch);
      NonePassed(h);
      hide Kept, Unseen, CursorAfter, Newer;
    case _ =>
  }

  lemma StepInStep(h: Hook, ev: Event)
    requires Inv(h) && InStep(h) && Enabled(h, ev) && Increasing(Apply(h, ev).log)
    ensures !Loses(h, ev) && InStep(Apply(h, ev))
  {
    StepLosesNothing(h, ev);
    AllAccounted(h, ev);
    hide Loses, Lost, Accounted, Inv;
    match ev
    case ServerAppends(d) => assert forall e :: e in h.log ==> e in h.log + [d];
    case Answers =>
      AnswerIsFresh(h);
      Answered(h);
      MergeKeepsStampsDistinct(h.list, h.flight.batch);
      CursorIsLogged(h);
    case LocalAppends(m) =>
    case _ =>
  }

  lemma CursorIsLogged(h: Hook)
    requires Inv(h) && InStep(h) && h.flight.Served?
    ensures var until := CursorAfter(h.flight.batch, h.since);
            until.Some? ==> exists d :: d in h.log && d.createdAt == until.value
  {
    BatchIsNewer(h);
    assert h.flight.batch != [] ==> h.flight.batch[|h.flight.batch| - 1] in h.log[..h.flight.seen];
  }

  /** With strictly increasing timestamps every message up to the cursor stands in the list, exactly once. */
  lemma {:induction false} IncreasingTimesLoseNothing(log: seq<Delivery>, evs: seq<Event>, end: Hook)
    requires Run(Mounted(log), evs, end) && Increasing(end.log)
    ensures LosesNothing(Mounted(log), evs, end)
    ensures Stamped(end.list) == multiset(Covered(end.log, end.since)) && DistinctStamps(end.list)
  {
    MountedAccounts(log);
    RunExtendsLog(Mounted(log), evs, end);
    RunInStep(Mounted(log), evs, end);
    EveryRunDeliversExactly(log, evs, end);
  }

  lemma {:induction false} RunInStep(h: Hook, evs: seq<Event>, end: Hook)
    requires Inv(h) && InStep(h) && Run(h, evs, end) && Increasing(end.log)
    ensures LosesNothing(h, evs, end) && InStep(end)
    decreases |evs|
  {
    if evs != [] {
      var next := Apply(h, evs[0]);
      EventKeeps(h, evs[0]);
      RunExtendsLog(next, evs[1..], end);
      assert Increasing(next.log);
      StepInStep(h, evs[0]);
      hide Inv, InStep, Loses, Apply, Increasing;
      RunInStep(next, evs[1..], end);
    }
  }

  // ----- Local copies left over

  /** The server messages of a text and sender that an event merges into the list. */
  function Merged(h: Hook, ev: Event, k: Key): nat
    requires Enabled(h, ev)
  {
    if ev.Answers? then CountDelivered(h.flight.batch, k) else 0
  }

  function Added(ev: Event, k: Key): nat {
    if ev.LocalAppends? && KeyOf(ev.m) == k then 1 else 0
  }

  ghost function MergedIn(h: Hook, evs: seq<Event>, end: Hook, k: Key): nat
    requires Run(h, evs, end)
    decreases |evs|
  {
    if evs == [] then 0 else Merged(h, evs[0], k) + MergedIn(Apply(h, evs[0]), evs[1..], end, k)
  }

  function AddedIn(evs: seq<Event>, k: Key): nat {
    if evs == [] then 0 else Added(evs[0], k) + AddedIn(evs[1..], k)
  }

  /** From every point of the run on, at least as many messages are merged as local ones are added. */
  ghost predicate NoneComesLate(h: Hook, evs: seq<Event>, end: Hook, k: Key)
    requires Run(h, evs, end)
    decreases |evs|
  {
    evs == [] || (AddedIn(evs, k) <= MergedIn(h, evs, end, k) && NoneComesLate(Apply(h, evs[0]), evs[1..], end, k))
  }

  lemma StepLeavesOver(h: Hook, ev: Event, k: Key)
    requires Inv(h) && Enabled(h, ev)
    ensures CountUnclaimed(Apply(h, ev).list, k) == Monus(CountUnclaimed(h.list, k), Merged(h, ev, k)) + Added(ev, k)
  {
    match ev
    case LocalAppends(m) => assert (h.list + [m])[..|h.list|] == h.list;
    case Answers =>
      Answered(h);
      MergeClaims(h.list, h.flight.batch, k);
    case _ =>
  }

  /**
   At the end of a run no local message of a text and sender is left beside the server's copies,
   exactly when from every point of the run on at least as many server messages are merged as
   local ones are added. A local copy added after the server's was merged stays.
   */
  lemma {:induction false} NothingIsLeftOverExactly(log: seq<Delivery>, evs: seq<Event>, end: Hook, k: Key)
    requires Run(Mounted(log), evs, end)
    ensures CountUnclaimed(end.list, k) == 0 <==> NoneComesLate(Mounted(log), evs, end, k)
  {
    LeftOver(Mounted(log), evs, end, k);
  }

  lemma {:induction false} LeftOver(h: Hook, evs: seq<Event>, end: Hook, k: Key)
    requires Inv(h) && Run(h, evs, end)
    ensures CountUnclaimed(end.list, k) == 0
            <==> CountUnclaimed(h.list, k) + AddedIn(evs, k) <= MergedIn(h, evs, end, k) && NoneComesLate(h, evs, end, k)
    decreases |evs|
  {
    if evs != [] {
      EventKeeps(h, evs[0]);
      StepLeavesOver(h, evs[0], k);
      hide Apply, Inv, Enabled, Added, CountUnclaimed;
      LeftOver(Apply(h, evs[0]), evs[1..], end, k);
    }
  }

  lemma {:induction false} AskedFromScratch(log: seq<Delivery>)
    ensures ListMessagesSince(log, None) == log
  {
    if log != [] {
      AskedFromScratch(log[..|log| - 1]);
      assert log == log[..|log| - 1] + [log[|log| - 1]];
    }
  }

  /** Running three events one after the other. */
  lemma ThreeSteps(h: Hook, e0: Event, e1: Event, e2: Event)
    requires Enabled(h, e0) && Enabled(Apply(h, e0), e1) && Enabled(Apply(Apply(h, e0), e1), e2)
    ensures Run(h, [e0, e1, e2], Apply(Apply(Apply(h, e0), e1), e2))
  {
    hide Apply, Enabled;
    var h1 := Apply(h, e0);
    var h2 := Apply(h1, e1);
    var end := Apply(h2, e2);
    assert Run(end, [], end);
    assert [e2][1..] == [] && Run(h2, [e2], end);
    assert [e1, e2][1..] == [e2] && Run(h1, [e1, e2], end);
    assert [e0, e1, e2][1..] == [e1, e2];
  }

  /** The list after the first answer, to a log of one message. */
  lemma FirstAnswer(h: Hook, d: Delivery)
    requires h.list == [] && h.since == None && h.flight.Served? && h.flight.batch == [d]
    ensures var after := Apply(h, Answers);
            && after.log == h.log && after.list == [Message(Stamp(d.createdAt), d.text, d.sender, Some(d.createdAt))]
            && after.since == Some(d.createdAt)
  {
    AscendingIsSorted([d]);
    assert MergeSorted([], [d]) == MergeSorted(MergeOne([], d), [d][1..]);
    assert [d][1..] == [];
    assert MergeSorted(MergeOne([], d), []) == MergeOne([], d);
  }

  /** A bot reply that a poll delivers before its local copy is added is shown twice. */
  lemma EarlyDeliveryLeavesCopy(text: string, at: nat) returns (end: Hook)
    ensures Run(Mounted([Delivery(text, Bot, at)]),
                [Serves([Delivery(text, Bot, at)]), Answers, LocalAppends(Message(Local("reply"), text, Bot, None))], end)
    ensures |end.list| == 2 && CountUnclaimed(end.list, (text, Bot)) == 1
  {
    var d, m := Delivery(text, Bot, at), Message(Local("reply"), text, Bot, None);
    var h0 := Mounted([d]);
    AskedFromScratch([d]);
    var h1 := Apply(h0, Serves([d]));
    FirstAnswer(h1, d);
    var h2 := Apply(h1, Answers);
    ThreeSteps(h0, Serves([d]), Answers, LocalAppends(m));
    end := Apply(h2, LocalAppends(m));
    assert end.list[..1] == h2.list && h2.list[..0] == [];
    assert CountUnclaimed(h2.list, (text, Bot)) == 0;
  }

  lemma TiedAnswer(h: Hook)
    requires Inv(h) && h.list == [] && h.flight.Served? && h.flight.batch == [Delivery("hi", User, 7), Delivery("yo", Bot, 7)]
    ensures var after := Apply(h, Answers);
            after.log == h.log && after.since == Some(7) && after.list == [Message(Stamp(7), "hi", User, Some(7))]
  {
    hide Inv, MergeSorted, InTimeOrder;
    SecondIsDropped(h.flight.batch[0], h.flight.batch[1]);
    Answered(h);
  }

  lemma TwoSteps(h: Hook, e0: Event, e1: Event)
    requires Enabled(h, e0) && Enabled(Apply(h, e0), e1)
    ensures Run(h, [e0, e1], Apply(Apply(h, e0), e1))
  {
    hide Apply, Enabled;
    var end := Apply(Apply(h, e0), e1);
    assert Run(end, [], end);
    assert [e1][1..] == [] && Run(Apply(h, e0), [e1], end);
    assert [e0, e1][1..] == [e1];
  }

  /** The first poll can be answered with the whole log. */
  lemma FirstServed(log: seq<Delivery>)
    requires Ascending(log)
    ensures Enabled(Mounted(log), Serves(log)) && Inv(Apply(Mounted(log), Serves(log)))
  {
    AskedFromScratch(log);
    MountedAccounts(log);
    EventKeeps(Mounted(log), Serves(log));
  }

  /** Two messages of one millisecond in one answer: the second is lost. */
  lemma TiedInOneAnswer() returns (end: Hook)
    ensures var (hi, yo) := (Delivery("hi", User, 7), Delivery("yo", Bot, 7));
            && Run(Mounted([hi, yo]), [Serves([hi, yo]), Answers], end)
            && end.log == [hi, yo] && end.since == Some(7) && end.list == [Message(Stamp(7), "hi", User, Some(7))]
  {
    hide Inv, MergeSorted, InTimeOrder, Run, ListMessagesSince;
    var log := [Delivery("hi", User, 7), Delivery("yo", Bot, 7)];
    FirstServed(log);
    TiedAnswer(Apply(Mounted(log), Serves(log)));
    TwoSteps(Mounted(log), Serves(log), Answers);
    end := Apply(Apply(Mounted(log), Serves(log)), Answers);
  }

  /** The second one is logged after the answer with the first was merged. */
  lemma TiedAfterTheAnswer() returns (end: Hook)
    ensures var (hi, yo) := (Delivery("hi", User, 7), Delivery("yo", Bot, 7));
            && Run(Mounted([hi]), [Serves([hi]), Answers, ServerAppends(yo)], end)
            && end.log == [hi, yo] && end.since == Some(7) && end.list == [Message(Stamp(7), "hi", User, Some(7))]
  {
    hide Inv, MergeSorted, InTimeOrder, Run, ListMessagesSince;
    var (hi, yo) := (Delivery("hi", User, 7), Delivery("yo", Bot, 7));
    FirstServed([hi]);
    var served := Apply(Mounted([hi]), Serves([hi]));
    FirstAnswer(served, hi);
    ThreeSteps(Mounted([hi]), Serves([hi]), Answers, ServerAppends(yo));
    end := Apply(Apply(served, Answers), ServerAppends(yo));
  }

  /** The second one is logged while the answer with the first is on its way. */
  lemma TiedOnTheWay() returns (end: Hook)
    ensures var (hi, yo) := (Delivery("hi", User, 7), Delivery("yo", Bot, 7));
            && Run(Mounted([hi]), [Serves([hi]), ServerAppends(yo), Answers], end)
            && end.log == [hi, yo] && end.since == Some(7) && end.list == [Message(Stamp(7), "hi", User, Some(7))]
  {
    hide Inv, MergeSorted, InTimeOrder, Run, ListMessagesSince;
    var (hi, yo) := (Delivery("hi", User, 7), Delivery("yo", Bot, 7));
    FirstServed([hi]);
    var served := Apply(Mounted([hi]), Serves([hi]));
    FirstAnswer(Apply(served, ServerAppends(yo)), hi);
    ThreeSteps(Mounted([hi]), Serves([hi]), ServerAppends(yo), Answers);
    end := Apply(Apply(served, ServerAppends(yo)), Answers);
  }

  /** Nothing that the answer was read from is newer than the cursor it leaves. */
  lemma CursorCatchesUp(h: Hook)
    requires Inv(h) && h.flight.Served?
    ensures forall d :: d in h.log[..h.flight.seen] ==> !Newer(d, CursorAfter(h.flight.batch, h.since))
  {
    BatchIsNewer(h);
    CursorAdvances(h);
    forall d | d in h.log[..h.flight.seen]
      ensures !Newer(d, CursorAfter(h.flight.batch, h.since))
    {
      assert Newer(d, h.since) ==> d in h.flight.batch;
    }
  }

  /** An answer that nothing was logged behind covers the log, and shows all of it unless its merge drops something. */
  lemma AnswerCoversLog(h: Hook)
    requires Inv(h) && h.flight.Served? && h.flight.seen == |h.log| && Accounted(h, multiset{})
    ensures var after := Apply(h, Answers);
            && after.log == h.log && Covered(h.log, after.since) == h.log
            && (Stamped(after.list) == multiset(h.log) <==> forall j :: 0 <= j < |h.flight.batch| ==> Kept(h.list, h.flight.batch, j))
  {
    hide Stamped, Dropped, MergeSorted, Kept;
    var batch := h.flight.batch;
    assert h.log[..|h.log|] == h.log;
    Answered(h);
    CursorCatchesUp(h);
    CoversAll(h.log, CursorAfter(batch, h.since));
    AnswerAccounts(h, multiset{});
    DroppedExactly(h.list, batch);
    assert Unseen(h) == [];
    NoneMissing(Stamped(Apply(h, Answers).list), Lost(h, Answers), multiset(h.log));
  }

  /** A poll answered with the log it was served from leaves nothing of that log behind, except for what its merge drops. */
  lemma AnswerCatchesUp(h: Hook, batch: seq<Delivery>)
    requires Inv(h) && Enabled(h, Serves(batch)) && Stamped(h.list) == multiset(Covered(h.log, h.since))
    ensures var after := Apply(Apply(h, Serves(batch)), Answers);
            && after.log == h.log && Covered(h.log, after.since) == h.log
            && (Stamped(after.list) == multiset(h.log) <==> forall j :: 0 <= j < |batch| ==> Kept(h.list, batch, j))
  {
    EventKeeps(h, Serves(batch));
    AnswerCoversLog(Apply(h, Serves(batch)));
  }

  /**
   A poll asks for a logged message exactly when it is strictly newer than the cursor; one that is
   not is never asked for again, whatever follows.
   */
  lemma {:induction false} AskedForExactly(h: Hook, d: Delivery, evs: seq<Event>, end: Hook)
    requires Inv(h) && d in h.log && Run(h, evs, end)
    ensures forall batch :: Enabled(h, Serves(batch)) ==> (d in batch <==> Newer(d, h.since))
    ensures !Newer(d, h.since) ==> !Newer(d, end.since) && (end.flight.Served? ==> d !in end.flight.batch)
    decreases |evs|
  {
    SinceExactly(h.log, h.since);
    forall batch | Enabled(h, Serves(batch))
      ensures d in batch <==> Newer(d, h.since)
    {
      SameMembers(batch, ListMessagesSince(h.log, h.since));
    }
    NeverAskedAgain(h, d, evs, end);
  }

  lemma {:induction false} NeverAskedAgain(h: Hook, d: Delivery, evs: seq<Event>, end: Hook)
    requires Inv(h) && Run(h, evs, end)
    ensures !Newer(d, h.since) ==> !Newer(d, end.since) && (end.flight.Served? ==> d !in end.flight.batch)
    decreases |evs|
  {
    if evs == [] {
      if h.flight.Served? {
        BatchIsNewer(h);
      }
    } else {
      EventKeeps(h, evs[0]);
      if !Newer(d, h.since) {
        CursorStaysOrAdvances(h, d, evs[0]);
      }
      hide Inv, Apply, Newer;
      NeverAskedAgain(Apply(h, evs[0]), d, evs[1..], end);
    }
  }

  lemma CursorStaysOrAdvances(h: Hook, d: Delivery, ev: Event)
    requires Inv(h) && Enabled(h, ev) && !Newer(d, h.since)
    ensures !Newer(d, Apply(h, ev).since)
  {
    if ev.Answers? {
      Answered(h);
      CursorAdvances(h);
    }
  }

  // ----- The hook's own state

  class PollingHook {
    var log: seq<Delivery>
    var updatedList: seq<Message>
    var since: Option<nat>
    var flight: Flight
    var timer: Option<nat>
    var consecutiveErrors: nat
    var hidden: bool

    ghost function View(): Hook
      reads this
    {
      Hook(log, updatedList, since, flight, timer, consecutiveErrors, hidden)
    }

    /** Mounts the hook and polls at once. */
    constructor (log: seq<Delivery>)
      ensures View() == Mounted(log)
    {
      this.log, updatedList, since, flight := log, [], None, Sent;
      timer, consecutiveErrors, hidden := None, 0, false;
    }

    method Poll()
      modifies this`flight
      ensures View() == StartPoll(old(View()))
    {
      if !flight.Resting? {
        return;
      }
      flight := Sent;
    }

    method OnTimer()
      requires Enabled(View(), TimerFires)
      modifies this
      ensures View() == Apply(old(View()), TimerFires)
    {
      timer := None;
      Poll();
    }

    method OnForeground()
      modifies this
      ensures View() == Apply(old(View()), Foreground)
    {
      hidden, timer := false, None;
      Poll();
    }

    method ScheduleNextPoll()
      modifies this`timer
      ensures View() == ScheduleNext(old(View()))
    {
      timer := Some(CalculateNextInterval(hidden, consecutiveErrors));
    }

    /** The answer is sorted, moves the cursor and is merged; then the next poll is scheduled. */
    method OnAnswer()
      requires Enabled(View(), Answers)
      modifies this
      ensures View() == Apply(old(View()), Answers)
    {
      hide InTimeOrder, MergeSorted, CalculateNextInterval;
      var newMsgs := flight.batch;
      consecutiveErrors := 0;
      if |newMsgs| > 0 {
        var sorted := InTimeOrder(newMsgs);
        SortedIsSame(newMsgs);
        since := Some(sorted[|sorted| - 1].createdAt);
        updatedList := MergeLoop(updatedList, sorted);
      }
      flight := Resting;
      ScheduleNextPoll();
    }

    method OnError()
      requires Enabled(View(), Fails)
      modifies this
      ensures View() == Apply(old(View()), Fails)
    {
      consecutiveErrors := consecutiveErrors + 1;
      flight := Resting;
      ScheduleNextPoll();
    }
  }
}
