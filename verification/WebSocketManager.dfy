/**
 The reconnecting client of apps/admin/src/lib/websocket.js.

 The browser side is part of the state: every socket ever created with its ready state, and the
 pending timers. Message bodies are abstract. `history` fields record what happened and decide
 nothing.
 */
module WebSocketManager {
  import opened Prelude

  datatype ReadyState = Connecting | Open | Closing | Closed

  datatype Shown = ShowsDisconnected | ShowsConnecting | ShowsReconnecting | ShowsConnected

  datatype Options = Options(reconnectBaseMs: real, reconnectMaxMs: real)

  /**
   The data of a message event: an object whose type is 'pong', any other JSON value with
   properties, JSON `null` (reading its type throws), or text that does not parse.
   */
  datatype Frame = Pong | Data(body: nat) | Null | Text(raw: nat)

  datatype Timer = Timer(delay: real, attempt: nat)

  datatype History = History(
    received: seq<Frame>,     // the messages that arrived, without pongs
    dispatched: seq<Frame>,   // the arguments of dispatchMessage
    waits: seq<real>,         // the delays armed since the last open
    wanted: bool,             // connect() was called; no disconnect() and no normal close of the current socket since
    displaced: bool)          // a close event of another socket came since the last open

  datatype Manager = Manager(
    sockets: seq<ReadyState>, pending: map<nat, Timer>, nextId: nat,
    ws: Option<nat>, reconnectTimer: Option<nat>, heartbeat: bool, state: Shown,
    reconnectAttempts: nat, messageBuffer: seq<Frame>, isTabActive: bool,
    history: History)

  /** `constructs`: no exception from getToken or the WebSocket constructor; `random` is Math.random(). */
  datatype Event =
    | Connect(constructs: bool, random: real)
    | Opens(socket: nat)
    | Receives(socket: nat, frame: Frame)
    | Closes(socket: nat, code: nat, random: real)
    | Visibility(isHidden: bool)
    | TimerFires(id: nat, constructs: bool, random: real)
    | HeartbeatTimesOut
    | Disconnect

  predicate IsLive(r: ReadyState) {
    r.Connecting? || r.Open?
  }

  // ----- Backoff

  function Power(k: nat): (p: real)
    ensures p >= 1.0
  {
    if k == 0 then 1.0 else 1.5 * Power(k - 1)
  }

  function Times(x: real, y: real): real {
    x * y
  }

  function Backoff(o: Options, attempts: nat): real
    requires attempts > 0
  {
    var raised := Times(o.reconnectBaseMs, Power(attempts - 1));
    if raised < o.reconnectMaxMs then raised else o.reconnectMaxMs
  }

  function Jittered(base: real, random: real): real {
    base * (0.8 + random * 0.4)
  }

  predicate Sensible(o: Options) {
    0.0 < o.reconnectBaseMs && 0.0 < o.reconnectMaxMs
  }

  predicate InBand(o: Options, attempt: nat, delay: real) {
    attempt > 0 && 0.8 * Backoff(o, attempt) <= delay < 1.2 * Backoff(o, attempt)
  }

  lemma {:induction false} PowerGrows(j: nat, k: nat)
    requires j <= k
    ensures Power(j) <= Power(k)
  {
    if j < k {
      PowerGrows(j, k - 1);
    }
  }

  /** Positive, never falling with the number of attempts, and capped. */
  lemma BackoffGrows(o: Options, j: nat, k: nat)
    requires Sensible(o) && 0 < j <= k
    ensures 0.0 < Backoff(o, j) <= Backoff(o, k) <= o.reconnectMaxMs
  {
    PowerGrows(j - 1, k - 1);
    Scaled(o.reconnectBaseMs, Power(k - 1), Power(k - 1));
    hide Times, Power;
    Scaled(o.reconnectBaseMs, Power(j - 1), Power(k - 1));
  }

  /** The first wait is the base, each later one half as long again, until the cap. */
  lemma BackoffIsExact(o: Options, k: nat)
    requires Sensible(o) && k > 0
    ensures Backoff(o, 1) == if o.reconnectBaseMs < o.reconnectMaxMs then o.reconnectBaseMs else o.reconnectMaxMs
    ensures Backoff(o, k + 1) == if 1.5 * Backoff(o, k) < o.reconnectMaxMs then 1.5 * Backoff(o, k) else o.reconnectMaxMs
  {
    HalfAgain(o.reconnectBaseMs, Power(k - 1));
    assert Times(o.reconnectBaseMs, 1.0) == o.reconnectBaseMs;
  }

  lemma HalfAgain(base: real, p: real)
    ensures Times(base, 1.5 * p) == 1.5 * Times(base, p)
  {
  }

  lemma Scaled(base: real, p: real, q: real)
    requires 0.0 < base && 1.0 <= p <= q
    ensures 0.0 < Times(base, p) <= Times(base, q)
  {
  }

  lemma JitterStaysInBand(o: Options, attempts: nat, random: real)
    requires Sensible(o) && attempts > 0 && 0.0 <= random < 1.0
    ensures InBand(o, attempts, Jittered(Backoff(o, attempts), random))
    ensures 0.8 * Backoff(o, attempts) <= Jittered(Backoff(o, attempts), random) < 1.2 * Backoff(o, attempts)
  {
    BackoffGrows(o, attempts, attempts);
    Spread(Backoff(o, attempts), random);
  }

  lemma Spread(base: real, random: real)
    requires 0.0 < base && 0.0 <= random < 1.0
    ensures 0.8 * base <= Jittered(base, random) < 1.2 * base
  {
    var factor := 0.8 + random * 0.4;
    assert Jittered(base, random) == base * factor;
    assert base * (factor - 0.8) >= 0.0;
    assert base * (1.2 - factor) > 0.0;
  }

  // ----- The handlers

  function Rescheduled(o: Options, m: Manager, random: real): Manager {
    var shown := m.(state := ShowsReconnecting);
    if m.reconnectTimer.Some? then shown
    else
      var attempts := m.reconnectAttempts + 1;
      var delay := Jittered(Backoff(o, attempts), random);
      shown.(reconnectAttempts := attempts, reconnectTimer := Some(m.nextId), nextId := m.nextId + 1,
             pending := m.pending[m.nextId := Timer(delay, attempts)],
             history := m.history.(waits := m.history.waits + [delay]))
  }

  predicate HasLiveSocket(m: Manager) {
    m.ws.Some? && m.ws.value < |m.sockets| && IsLive(m.sockets[m.ws.value])
  }

  function ConnectStep(o: Options, m: Manager, constructs: bool, random: real): Manager {
    if HasLiveSocket(m) then m
    else
      var shown := m.(state := if m.reconnectAttempts > 0 then ShowsReconnecting else ShowsConnecting);
      if constructs then shown.(sockets := m.sockets + [Connecting], ws := Some(|m.sockets|))
      else Rescheduled(o, shown, random)
  }

  function OnOpen(m: Manager, socket: nat): Manager
    requires socket < |m.sockets|
  {
    m.(sockets := m.sockets[socket := Open], reconnectAttempts := 0, state := ShowsConnected, heartbeat := true,
       history := m.history.(waits := [], displaced := false))
  }

  function Dispatched(m: Manager, frame: Frame): Manager {
    m.(history := m.history.(dispatched := m.history.dispatched + [frame]))
  }

  /** Frames that end in the catch branch are dispatched as raw text, whether or not the tab is shown. */
  predicate IsRaw(frame: Frame) {
    frame.Null? || frame.Text?
  }

  function OnMessage(m: Manager, frame: Frame): Manager {
    if frame.Pong? then m
    else
      var got := m.(history := m.history.(received := m.history.received + [frame]));
      if frame.Data? && !m.isTabActive then got.(messageBuffer := m.messageBuffer + [frame])
      else Dispatched(got, frame)
  }

  function Shut(m: Manager, socket: nat, code: nat): Manager
    requires socket < |m.sockets|
  {
    m.(sockets := m.sockets[socket := Closed], heartbeat := false,
       history := m.history.(wanted := m.history.wanted && !(code == 1000 && m.ws == Some(socket)),
                             displaced := m.history.displaced || m.ws != Some(socket)))
  }

  function OnClose(o: Options, m: Manager, socket: nat, code: nat, random: real): Manager
    requires socket < |m.sockets|
  {
    var closed := Shut(m, socket, code);
    if code != 1000 then Rescheduled(o, closed, random) else closed.(state := ShowsDisconnected)
  }

  function Flushed(m: Manager): Manager {
    m.(messageBuffer := [], history := m.history.(dispatched := m.history.dispatched + m.messageBuffer))
  }

  function OnVisibility(m: Manager, isHidden: bool): Manager {
    var seen := m.(isTabActive := !isHidden);
    if !isHidden && |m.messageBuffer| > 0 then Flushed(seen) else seen
  }

  function OnTimer(o: Options, m: Manager, id: nat, constructs: bool, random: real): Manager {
    ConnectStep(o, m.(pending := m.pending - {id}, reconnectTimer := None), constructs, random)
  }

  /** `close()` on a live socket only starts the closing handshake; its close event comes later. */
  function CloseCurrent(m: Manager): Manager {
    if HasLiveSocket(m) then m.(sockets := m.sockets[m.ws.value := Closing]) else m
  }

  function DisconnectStep(m: Manager): Manager {
    var cleared := if m.reconnectTimer.Some? then m.(pending := m.pending - {m.reconnectTimer.value}, reconnectTimer := None) else m;
    CloseCurrent(cleared).(heartbeat := false, ws := None, state := ShowsDisconnected,
                           history := m.history.(wanted := false))
  }

  /** What the browser can deliver: only an open socket receives, only a pending timer fires, ... */
  predicate Enabled(m: Manager, e: Event) {
    match e
    case Connect(_, random) => 0.0 <= random < 1.0
    case Opens(s) => s < |m.sockets| && m.sockets[s].Connecting?
    case Receives(s, _) => s < |m.sockets| && m.sockets[s].Open?
    case Closes(s, _, random) => s < |m.sockets| && !m.sockets[s].Closed? && 0.0 <= random < 1.0
    case TimerFires(id, _, random) => id in m.pending && 0.0 <= random < 1.0
    case _ => true
  }

  function Step(o: Options, m: Manager, e: Event): Manager
    requires Enabled(m, e)
  {
    match e
    case Connect(constructs, random) => ConnectStep(o, m.(history := m.history.(wanted := true)), constructs, random)
    case Opens(s) => OnOpen(m, s)
    case Receives(_, frame) => OnMessage(m, frame)
    case Closes(s, code, random) => OnClose(o, m, s, code, random)
    case Visibility(isHidden) => OnVisibility(m, isHidden)
    case TimerFires(id, constructs, random) => OnTimer(o, m, id, constructs, random)
    case HeartbeatTimesOut => CloseCurrent(m)
    case Disconnect => DisconnectStep(m)
  }

  function Created(isTabActive: bool): Manager {
    Manager([], map[], 1, None, None, false, ShowsDisconnected, 0, [], isTabActive,
            History([], [], [], false, false))
  }

  ghost predicate Run(o: Options, m: Manager, es: seq<Event>, end: Manager)
    decreases |es|
  {
    if es == [] then m == end
    else Enabled(m, es[0]) && Run(o, Step(o, m, es[0]), es[1..], end)
  }

  // ----- What every step keeps

  /** Of all sockets ever created only the current one can be connecting or open. */
  ghost predicate OneLiveSocket(m: Manager) {
    && (m.ws.Some? ==> m.ws.value < |m.sockets|)
    && forall s :: 0 <= s < |m.sockets| && IsLive(m.sockets[s]) ==> m.ws == Some(s)
  }

  /** The pending reconnect timers are the one the manager knows, or none. */
  ghost predicate OneTimer(m: Manager) {
    && (forall id :: id in m.pending ==> m.reconnectTimer == Some(id))
    && (m.reconnectTimer.Some? ==> m.reconnectTimer.value in m.pending)
  }

  ghost predicate WaitsInBand(o: Options, m: Manager) {
    && |m.history.waits| == m.reconnectAttempts
    && (forall k :: 0 <= k < |m.history.waits| ==> InBand(o, k + 1, m.history.waits[k]))
    && (forall id :: id in m.pending ==> InBand(o, m.pending[id].attempt, m.pending[id].delay))
  }

  /** While a connection is wanted a reconnect is pending, or the current socket is still to close. */
  ghost predicate NotStranded(m: Manager) {
    m.history.wanted ==>
      m.reconnectTimer.Some? || (m.ws.Some? && m.ws.value < |m.sockets| && !m.sockets[m.ws.value].Closed?)
  }

  ghost predicate CurrentIsOpen(m: Manager) {
    m.ws.Some? && m.ws.value < |m.sockets| && m.sockets[m.ws.value].Open?
  }

  /** Shown as connected, with the heartbeat running, exactly until another socket's close event. */
  ghost predicate ShownExactly(m: Manager) {
    CurrentIsOpen(m) ==> (m.state.ShowsConnected? <==> !m.history.displaced) && (m.heartbeat <==> !m.history.displaced)
  }

  ghost predicate ConnectedWasOpened(m: Manager) {
    m.state.ShowsConnected? ==>
      m.ws.Some? && m.ws.value < |m.sockets| && (m.sockets[m.ws.value].Open? || m.sockets[m.ws.value].Closing?)
  }

  ghost predicate Sound(o: Options, m: Manager) {
    && OneLiveSocket(m) && OneTimer(m) && WaitsInBand(o, m)
    && (forall id :: id in m.pending ==> id < m.nextId)
  }

  ghost predicate Safe(o: Options, m: Manager) {
    Sound(o, m) && NotStranded(m) && ShownExactly(m) && ConnectedWasOpened(m)
  }

  lemma ScheduleKeeps(o: Options, m: Manager, random: real)
    requires Sensible(o) && 0.0 <= random < 1.0 && Sound(o, m)
    ensures var after := Rescheduled(o, m, random);
            && Sound(o, after) && after.reconnectTimer.Some? && after.state.ShowsReconnecting?
            && after.(pending := m.pending, nextId := m.nextId, reconnectTimer := m.reconnectTimer, state := m.state,
                      reconnectAttempts := m.reconnectAttempts, history := after.history.(waits := m.history.waits)) == m
  {
    JitterStaysInBand(o, m.reconnectAttempts + 1, random);
    hide InBand, Backoff, Jittered;
  }

  lemma ConnectKeeps(o: Options, m: Manager, constructs: bool, random: real)
    requires Sensible(o) && 0.0 <= random < 1.0 && Sound(o, m) && ShownExactly(m) && ConnectedWasOpened(m)
    ensures Safe(o, ConnectStep(o, m, constructs, random))
  {
    if !HasLiveSocket(m) && !constructs {
      ScheduleKeeps(o, m.(state := if m.reconnectAttempts > 0 then ShowsReconnecting else ShowsConnecting), random);
    }
    hide InBand, Rescheduled;
  }

  lemma CloseKeeps(o: Options, m: Manager, socket: nat, code: nat, random: real)
    requires Sensible(o) && Safe(o, m) && Enabled(m, Closes(socket, code, random))
    ensures Safe(o, OnClose(o, m, socket, code, random))
  {
    if code != 1000 {
      ScheduleKeeps(o, Shut(m, socket, code), random);
    }
    hide InBand, Rescheduled;
  }

  lemma StepKeeps(o: Options, m: Manager, e: Event)
    requires Sensible(o) && Safe(o, m) && Enabled(m, e)
    ensures Safe(o, Step(o, m, e))
  {
    hide Safe, ConnectStep, OnClose, OnTimer, OnOpen, CloseCurrent, DisconnectStep, OnMessage, OnVisibility;
    match e
    case Connect(constructs, random) =>
      WantingKeeps(o, m);
      ConnectKeeps(o, m.(history := m.history.(wanted := true)), constructs, random);
    case Closes(s, code, random) => CloseKeeps(o, m, s, code, random);
    case TimerFires(id, constructs, random) => TimerKeeps(o, m, id, constructs, random);
    case Opens(s) => OpenKeeps(o, m, s);
    case HeartbeatTimesOut => CloseCurrentKeeps(o, m);
    case Disconnect => DisconnectKeeps(o, m);
    case _ => TrafficKeeps(o, m, e);
  }

  lemma WantingKeeps(o: Options, m: Manager)
    requires Safe(o, m)
    ensures var next := m.(history := m.history.(wanted := true)); Sound(o, next) && ShownExactly(next) && ConnectedWasOpened(next)
  {
  }

  lemma TimerKeeps(o: Options, m: Manager, id: nat, constructs: bool, random: real)
    requires Sensible(o) && Safe(o, m) && Enabled(m, TimerFires(id, constructs, random))
    ensures Safe(o, OnTimer(o, m, id, constructs, random))
  {
    ConnectKeeps(o, m.(pending := m.pending - {id}, reconnectTimer := None), constructs, random);
    hide ConnectStep, InBand;
  }

  lemma TrafficKeeps(o: Options, m: Manager, e: Event)
    requires Safe(o, m) && Enabled(m, e) && (e.Receives? || e.Visibility?)
    ensures Safe(o, Step(o, m, e))
  {
    hide InBand, Rescheduled, ConnectStep;
  }

  lemma OpenKeeps(o: Options, m: Manager, s: nat)
    requires Safe(o, m) && Enabled(m, Opens(s))
    ensures Safe(o, OnOpen(m, s))
  {
    hide InBand;
    assert m.ws == Some(s);
  }

  lemma CloseCurrentKeeps(o: Options, m: Manager)
    requires Safe(o, m)
    ensures Safe(o, CloseCurrent(m))
  {
    hide InBand;
  }

  /** After disconnect() no socket is live and no reconnect timer is pending. */
  lemma DisconnectKeeps(o: Options, m: Manager)
    requires Safe(o, m)
    ensures var after := DisconnectStep(m);
            && Safe(o, after) && Quiet(after) && after.nextId == m.nextId && |after.sockets| == |m.sockets|
            && after.ws.None? && after.reconnectTimer.None? && !after.heartbeat
  {
    hide InBand;
    assert DisconnectStep(m).pending == map[];
  }

  /**
   In every run of connect, disconnect, socket, timer and visibility events: at most one socket
   ever created is connecting or open, and it is the manager's; at most one reconnect timer is
   pending; the k-th delay since the last open lies within a fifth of the k-th backoff; and as
   long as a connection is wanted the current socket has not closed or a reconnect is pending.
   */
  lemma {:induction false} EveryRunIsSafe(o: Options, isTabActive: bool, es: seq<Event>, end: Manager)
    requires Sensible(o) && Run(o, Created(isTabActive), es, end)
    ensures forall s, t :: 0 <= s < |end.sockets| && 0 <= t < |end.sockets| && IsLive(end.sockets[s]) && IsLive(end.sockets[t]) ==> s == t
    ensures forall i, j :: i in end.pending && j in end.pending ==> i == j
    ensures WaitsInBand(o, end) && NotStranded(end)
  {
    RunKeeps(o, Created(isTabActive), es, end);
  }

  lemma {:induction false} RunKeeps(o: Options, m: Manager, es: seq<Event>, end: Manager)
    requires Sensible(o) && Safe(o, m) && Run(o, m, es, end)
    ensures Safe(o, end)
    decreases |es|
  {
    if es != [] {
      StepKeeps(o, m, es[0]);
      RunKeeps(o, Step(o, m, es[0]), es[1..], end);
    }
  }

  /**
   An open connection is shown as connected, and has its heartbeat, exactly when no other
   socket's close event came since it opened.
   */
  lemma {:induction false} ConnectedIsShownExactly(o: Options, isTabActive: bool, es: seq<Event>, end: Manager)
    requires Sensible(o) && Run(o, Created(isTabActive), es, end) && CurrentIsOpen(end)
    ensures end.state.ShowsConnected? <==> !end.history.displaced
    ensures end.heartbeat <==> !end.history.displaced
  {
    RunKeeps(o, Created(isTabActive), es, end);
  }

  // ----- What is shown otherwise

  ghost predicate SomeOpened(m: Manager) {
    exists s :: 0 <= s < |m.sockets| && (m.sockets[s].Open? || m.sockets[s].Closing?)
  }

  /**
   The first attempt shows as connecting and later ones as reconnecting, unless another socket's
   close event came; the heartbeat runs only while some opened socket has not closed, and not after
   disconnect().
   */
  ghost predicate ShownRight(m: Manager) {
    && (m.state.ShowsConnecting? ==> m.reconnectAttempts == 0 && m.ws.Some?)
    && (m.state.ShowsReconnecting? && m.reconnectAttempts == 0 ==> m.history.displaced || (m.reconnectTimer.Some? && !HasLiveSocket(m)))
    && (m.heartbeat ==> m.ws.Some? && SomeOpened(m))
  }

  lemma ConnectShowsRight(o: Options, m: Manager, constructs: bool, random: real)
    requires m.heartbeat ==> m.ws.Some? && SomeOpened(m)
    requires HasLiveSocket(m) ==> ShownRight(m)
    ensures ShownRight(ConnectStep(o, m, constructs, random))
  {
    hide Backoff, Jittered;
    if !HasLiveSocket(m) && constructs && m.heartbeat {
      var s :| 0 <= s < |m.sockets| && (m.sockets[s].Open? || m.sockets[s].Closing?);
      assert ConnectStep(o, m, constructs, random).sockets[s] == m.sockets[s];
    }
  }

  lemma CloseCurrentShowsRight(m: Manager)
    requires ShownRight(m)
    ensures ShownRight(CloseCurrent(m))
  {
    if m.heartbeat {
      var s :| 0 <= s < |m.sockets| && (m.sockets[s].Open? || m.sockets[s].Closing?);
      var after := CloseCurrent(m);
      assert after.sockets[s].Open? || after.sockets[s].Closing?;
    }
  }

  lemma CloseShowsRight(o: Options, m: Manager, socket: nat, code: nat, random: real)
    requires ShownRight(m) && Enabled(m, Closes(socket, code, random))
    ensures ShownRight(OnClose(o, m, socket, code, random))
  {
    hide Backoff, Jittered;
  }

  lemma StepShowsRight(o: Options, m: Manager, e: Event)
    requires Safe(o, m) && ShownRight(m) && Enabled(m, e)
    ensures ShownRight(Step(o, m, e))
  {
    hide ConnectStep, OnClose, Rescheduled, InBand;
    match e
    case Connect(constructs, random) => ConnectShowsRight(o, m.(history := m.history.(wanted := true)), constructs, random);
    case Closes(s, code, random) => CloseShowsRight(o, m, s, code, random);
    case TimerFires(id, constructs, random) =>
      ConnectShowsRight(o, m.(pending := m.pending - {id}, reconnectTimer := None), constructs, random);
    case Opens(s) => assert OnOpen(m, s).sockets[s].Open? && m.ws == Some(s);
    case HeartbeatTimesOut => CloseCurrentShowsRight(m);
    case _ =>
  }

  lemma {:induction false} EveryRunShowsRight(o: Options, isTabActive: bool, es: seq<Event>, end: Manager)
    requires Sensible(o) && Run(o, Created(isTabActive), es, end)
    ensures ShownRight(end)
  {
    RunShowsRight(o, Created(isTabActive), es, end);
  }

  lemma {:induction false} RunShowsRight(o: Options, m: Manager, es: seq<Event>, end: Manager)
    requires Sensible(o) && Safe(o, m) && ShownRight(m) && Run(o, m, es, end)
    ensures ShownRight(end)
    decreases |es|
  {
    if es != [] {
      StepKeeps(o, m, es[0]);
      StepShowsRight(o, m, es[0]);
      hide Safe, ShownRight, Step, Enabled;
      RunShowsRight(o, Step(o, m, es[0]), es[1..], end);
    }
  }

  /** A connection is wanted from connect() until disconnect() or a normal close of the current socket. */
  lemma WantedUntil(o: Options, m: Manager, e: Event)
    requires Enabled(m, e)
    ensures Step(o, m, e).history.wanted
       <==> e.Connect? || (m.history.wanted && !e.Disconnect? && !(e.Closes? && e.code == 1000 && m.ws == Some(e.socket)))
  {
    hide Backoff, Jittered;
  }

  // ----- After disconnect()

  /** No connection and none to come. */
  ghost predicate Quiet(m: Manager) {
    m.pending == map[] && m.state.ShowsDisconnected? && forall s :: 0 <= s < |m.sockets| ==> !IsLive(m.sockets[s])
  }

  lemma QuietStep(o: Options, m: Manager, e: Event)
    requires Safe(o, m) && Quiet(m) && Enabled(m, e) && !e.Connect? && (e.Closes? ==> e.code == 1000)
    ensures var after := Step(o, m, e); Quiet(after) && after.nextId == m.nextId && |after.sockets| == |m.sockets|
  {
    hide InBand;
    assert m.reconnectTimer.None?;
    assert e.Disconnect? ==> DisconnectStep(m).pending == map[];
  }

  /** Timer numbers and sockets are never taken back, and an abnormal close with no timer pending arms one. */
  lemma StepsOnlyAdd(o: Options, m: Manager, e: Event)
    requires Enabled(m, e)
    ensures var after := Step(o, m, e);
            && after.nextId >= m.nextId && |after.sockets| >= |m.sockets|
            && (e.Closes? && e.code != 1000 && m.reconnectTimer.None? ==> after.nextId > m.nextId)
  {
    hide Backoff, Jittered;
  }

  /**
   After disconnect() and until the next connect() no timer is armed and no socket opened,
   exactly when every close event that still comes is a normal one.
   */
  lemma {:induction false} StaysDisconnectedExactly(o: Options, m: Manager, es: seq<Event>, end: Manager)
    requires Sensible(o) && Safe(o, m) && Run(o, DisconnectStep(m), es, end) && forall e :: e in es ==> !e.Connect?
    ensures end.nextId == m.nextId && |end.sockets| == |m.sockets|
            <==> forall e :: e in es && e.Closes? ==> e.code == 1000
    ensures (forall e :: e in es && e.Closes? ==> e.code == 1000) ==> Quiet(end)
  {
    DisconnectKeeps(o, m);
    StaysQuiet(o, DisconnectStep(m), es, end);
  }

  lemma {:induction false} StaysQuiet(o: Options, m: Manager, es: seq<Event>, end: Manager)
    requires Sensible(o) && Safe(o, m) && Quiet(m) && Run(o, m, es, end) && forall e :: e in es ==> !e.Connect?
    ensures end.nextId == m.nextId && |end.sockets| == |m.sockets|
            <==> forall e :: e in es && e.Closes? ==> e.code == 1000
    ensures (forall e :: e in es && e.Closes? ==> e.code == 1000) ==> Quiet(end)
    decreases |es|
  {
    if es != [] {
      var next := Step(o, m, es[0]);
      assert es == [es[0]] + es[1..];
      if es[0].Closes? && es[0].code != 1000 {
        StepsOnlyAdd(o, m, es[0]);
        assert m.reconnectTimer.None? && es[0] in es;
        RunsOnlyAdd(o, next, es[1..], end);
      } else {
        QuietStep(o, m, es[0]);
        StepKeeps(o, m, es[0]);
        hide Step, Safe, Quiet, Enabled;
        StaysQuiet(o, next, es[1..], end);
      }
    }
  }

  lemma {:induction false} RunsOnlyAdd(o: Options, m: Manager, es: seq<Event>, end: Manager)
    requires Run(o, m, es, end)
    ensures end.nextId >= m.nextId && |end.sockets| >= |m.sockets|
    decreases |es|
  {
    if es != [] {
      StepsOnlyAdd(o, m, es[0]);
      hide Step, Enabled;
      RunsOnlyAdd(o, Step(o, m, es[0]), es[1..], end);
    }
  }

  // ----- Order of delivery

  /** Nothing is lost or delivered twice, and both kinds of message keep their own order. */
  ghost predicate Delivered(m: Manager) {
    && Bodies(m.history.dispatched) + m.messageBuffer == Bodies(m.history.received)
    && Raws(m.history.dispatched) == Raws(m.history.received)
    && (forall f :: f in m.messageBuffer ==> f.Data?)
    && (m.isTabActive ==> m.messageBuffer == [])
  }

  ghost predicate InOrder(m: Manager) {
    m.history.dispatched + m.messageBuffer == m.history.received
  }

  /** Some message was handed out before one that arrived earlier. */
  ghost predicate Overtaken(m: Manager) {
    exists i :: 0 <= i < |m.history.dispatched| && i < |m.history.received| && m.history.dispatched[i] != m.history.received[i]
  }

  function Bodies(fs: seq<Frame>): seq<Frame> {
    if fs == [] then []
    else Bodies(fs[..|fs| - 1]) + if IsRaw(fs[|fs| - 1]) then [] else [fs[|fs| - 1]]
  }

  function Raws(fs: seq<Frame>): seq<Frame> {
    if fs == [] then []
    else Raws(fs[..|fs| - 1]) + if IsRaw(fs[|fs| - 1]) then [fs[|fs| - 1]] else []
  }

  lemma OneMoreBody(d: seq<Frame>, f: Frame)
    ensures Bodies(d + [f]) == Bodies(d) + if IsRaw(f) then [] else [f]
    ensures Raws(d + [f]) == Raws(d) + if IsRaw(f) then [f] else []
  {
    assert (d + [f])[..|d + [f]| - 1] == d;
  }

  lemma {:induction false} FlushedBodies(d: seq<Frame>, b: seq<Frame>)
    requires forall f :: f in b ==> f.Data?
    ensures Bodies(d + b) == Bodies(d) + b && Raws(d + b) == Raws(d)
  {
    if b == [] {
      assert d + b == d;
    } else {
      var n := |b| - 1;
      FlushedBodies(d, b[..n]);
      OneMoreBody(d + b[..n], b[n]);
      hide Bodies, Raws;
      assert b[n] in b && b == b[..n] + [b[n]];
      assert d + b == (d + b[..n]) + [b[n]];
      assert (Bodies(d) + b[..n]) + [b[n]] == Bodies(d) + b;
    }
  }

  ghost predicate DeliversNothing(m: Manager, after: Manager) {
    && after.messageBuffer == m.messageBuffer && after.isTabActive == m.isTabActive
    && after.history.dispatched == m.history.dispatched && after.history.received == m.history.received
  }

  lemma RescheduledDeliversNothing(o: Options, m: Manager, random: real)
    ensures DeliversNothing(m, Rescheduled(o, m, random))
  {
    hide Backoff, Jittered;
  }

  lemma ConnectDeliversNothing(o: Options, m: Manager, constructs: bool, random: real)
    ensures DeliversNothing(m, ConnectStep(o, m, constructs, random))
  {
    RescheduledDeliversNothing(o, m.(state := if m.reconnectAttempts > 0 then ShowsReconnecting else ShowsConnecting), random);
    hide Rescheduled, HasLiveSocket;
  }

  /** Only messages and visibility changes touch the buffer and what has been delivered. */
  lemma OthersDeliverNothing(o: Options, m: Manager, e: Event)
    requires Enabled(m, e) && !e.Receives? && !e.Visibility?
    ensures DeliversNothing(m, Step(o, m, e))
  {
    hide Rescheduled, ConnectStep, HasLiveSocket;
    match e
    case Connect(constructs, random) => ConnectDeliversNothing(o, m.(history := m.history.(wanted := true)), constructs, random);
    case Closes(s, code, random) => RescheduledDeliversNothing(o, Shut(m, s, code), random);
    case TimerFires(id, constructs, random) =>
      ConnectDeliversNothing(o, m.(pending := m.pending - {id}, reconnectTimer := None), constructs, random);
    case _ =>
  }

  /** A hidden tab hands out no message that was parsed, however many arrive, until it is shown. */
  lemma {:induction false} HiddenTabHolds(o: Options, m: Manager, es: seq<Event>, end: Manager)
    requires Run(o, m, es, end) && !m.isTabActive && forall e :: e in es ==> e != Visibility(false)
    ensures Bodies(end.history.dispatched) == Bodies(m.history.dispatched) && !end.isTabActive
    decreases |es|
  {
    if es != [] {
      var next := Step(o, m, es[0]);
      assert es[0] in es && forall e :: e in es[1..] ==> e in es;
      HiddenStepHolds(o, m, es[0]);
      hide Step, Enabled, Bodies;
      HiddenTabHolds(o, next, es[1..], end);
    }
  }

  lemma HiddenStepHolds(o: Options, m: Manager, e: Event)
    requires Enabled(m, e) && !m.isTabActive && e != Visibility(false)
    ensures Bodies(Step(o, m, e).history.dispatched) == Bodies(m.history.dispatched) && !Step(o, m, e).isTabActive
  {
    if e.Receives? {
      OneMoreBody(m.history.dispatched, e.frame);
    } else if !e.Visibility? {
      OthersDeliverNothing(o, m, e);
    }
  }

  /** A raw message reaches the listeners ahead of the messages waiting in the buffer. */
  predicate Overtakes(m: Manager, e: Event) {
    e.Receives? && IsRaw(e.frame) && m.messageBuffer != []
  }

  lemma StepDelivers(o: Options, m: Manager, e: Event)
    requires Delivered(m) && Enabled(m, e)
    ensures Delivered(Step(o, m, e))
    ensures InOrder(m) ==> (InOrder(Step(o, m, e)) <==> !Overtakes(m, e))
    ensures InOrder(m) && Overtakes(m, e) ==> Overtaken(Step(o, m, e))
    ensures Overtaken(m) ==> Overtaken(Step(o, m, e))
  {
    match e
    case Receives(_, frame) =>
      MessageDelivers(m, frame);
      assert Step(o, m, e) == OnMessage(m, frame);
      hide OnMessage, Step, Enabled, Delivered, InOrder, Overtaken;
    case Visibility(isHidden) =>
      FlushDelivers(m, isHidden);
      assert Step(o, m, e) == OnVisibility(m, isHidden);
      hide OnVisibility, Step, Enabled, Delivered, InOrder, Overtaken;
    case _ =>
      OthersDeliverNothing(o, m, e);
      hide Step, Enabled, Bodies, Raws;
  }

  lemma FlushDelivers(m: Manager, isHidden: bool)
    requires Delivered(m)
    ensures Delivered(OnVisibility(m, isHidden))
    ensures InOrder(m) <==> InOrder(OnVisibility(m, isHidden))
    ensures Overtaken(m) ==> Overtaken(OnVisibility(m, isHidden))
  {
    FlushedBodies(m.history.dispatched, m.messageBuffer);
    var after := OnVisibility(m, isHidden);
    assert Bodies(m.history.dispatched) + m.messageBuffer + [] == Bodies(m.history.dispatched) + m.messageBuffer;
    assert m.history.dispatched + m.messageBuffer + [] == m.history.dispatched + m.messageBuffer;
    if Overtaken(m) {
      var i :| 0 <= i < |m.history.dispatched| && i < |m.history.received| && m.history.dispatched[i] != m.history.received[i];
      assert after.history.dispatched[i] == m.history.dispatched[i];
    }
  }

  lemma MessageDelivers(m: Manager, frame: Frame)
    requires Delivered(m)
    ensures Delivered(OnMessage(m, frame))
    ensures InOrder(m) ==> (InOrder(OnMessage(m, frame)) <==> !(IsRaw(frame) && m.messageBuffer != []))
    ensures InOrder(m) && IsRaw(frame) && m.messageBuffer != [] ==> Overtaken(OnMessage(m, frame))
    ensures Overtaken(m) ==> Overtaken(OnMessage(m, frame))
  {
    if !frame.Pong? {
      MessageKeepsKinds(m, frame);
      hide Bodies, Raws;
      if InOrder(m) {
        MessageOrder(m.history.dispatched, m.messageBuffer, m.history.received, frame);
      }
      if Overtaken(m) {
        MessageKeepsOvertaken(m, frame);
      }
    }
  }

  lemma MessageKeepsKinds(m: Manager, frame: Frame)
    requires Delivered(m) && !frame.Pong?
    ensures Delivered(OnMessage(m, frame))
  {
    OneMoreBody(m.history.dispatched, frame);
    OneMoreBody(m.history.received, frame);
    hide Bodies, Raws;
    assert Bodies(m.history.dispatched) + (m.messageBuffer + [frame]) == (Bodies(m.history.dispatched) + m.messageBuffer) + [frame];
  }

  lemma MessageKeepsOvertaken(m: Manager, frame: Frame)
    requires Overtaken(m) && !frame.Pong?
    ensures Overtaken(OnMessage(m, frame))
  {
    var i :| 0 <= i < |m.history.dispatched| && i < |m.history.received| && m.history.dispatched[i] != m.history.received[i];
    var after := OnMessage(m, frame);
    assert after.history.dispatched[i] == m.history.dispatched[i] && after.history.received[i] == m.history.received[i];
  }

  /** Appending to the buffer keeps the order; handing out past a buffer that starts with a body does not. */
  lemma MessageOrder(d: seq<Frame>, b: seq<Frame>, r: seq<Frame>, frame: Frame)
    requires d + b == r && forall f :: f in b ==> f.Data?
    ensures d + (b + [frame]) == r + [frame]
    ensures b == [] ==> (d + [frame]) + b == r + [frame]
    ensures b != [] && IsRaw(frame) ==> (d + [frame])[|d|] != (r + [frame])[|d|] && (d + [frame]) + b != r + [frame]
  {
    if b != [] && IsRaw(frame) {
      assert b[0] in b && r[|d|] == b[0];
      assert ((d + [frame]) + b)[|d|] == frame && (r + [frame])[|d|] == b[0];
    }
  }

  /** Some event of the run overtakes the buffer. */
  ghost predicate SomeOvertakes(o: Options, m: Manager, es: seq<Event>, end: Manager)
    requires Run(o, m, es, end)
    decreases |es|
  {
    es != [] && (Overtakes(m, es[0]) || SomeOvertakes(o, Step(o, m, es[0]), es[1..], end))
  }

  /**
   In every run nothing is lost or delivered twice and an active tab holds nothing back.
   Messages dispatched followed by messages buffered are those received, in order, exactly when
   no `null` or unparsable frame arrives while the buffer holds messages.
   */
  lemma {:induction false} OrderIsKeptExactly(o: Options, isTabActive: bool, es: seq<Event>, end: Manager)
    requires Run(o, Created(isTabActive), es, end)
    ensures Delivered(end)
    ensures InOrder(end) <==> !SomeOvertakes(o, Created(isTabActive), es, end)
  {
    RunDelivers(o, Created(isTabActive), es, end);
  }

  lemma {:induction false} RunDelivers(o: Options, m: Manager, es: seq<Event>, end: Manager)
    requires Delivered(m) && Run(o, m, es, end)
    ensures Delivered(end)
    ensures InOrder(m) ==> (InOrder(end) <==> !SomeOvertakes(o, m, es, end))
    ensures Overtaken(m) ==> Overtaken(end) && !InOrder(end)
    decreases |es|
  {
    if es != [] {
      StepDelivers(o, m, es[0]);
      RunDelivers(o, Step(o, m, es[0]), es[1..], end);
    } else if Overtaken(m) {
      var i :| 0 <= i < |m.history.dispatched| && i < |m.history.received| && m.history.dispatched[i] != m.history.received[i];
      assert (m.history.dispatched + m.messageBuffer)[i] == m.history.dispatched[i];
    }
  }

  lemma {:induction false} RunThen(o: Options, m: Manager, es: seq<Event>, mid: Manager, e: Event)
    requires Run(o, m, es, mid) && Enabled(mid, e)
    ensures Run(o, m, es + [e], Step(o, mid, e))
    decreases |es|
  {
    hide Step, Enabled;
    if es != [] {
      RunThen(o, Step(o, m, es[0]), es[1..], mid, e);
      assert (es + [e])[1..] == es[1..] + [e];
    }
  }

  /** A hidden tab gets a message and then `null`: the listeners hear of `null` first. */
  lemma NullOvertakes(o: Options)
    ensures exists es, end :: Run(o, Created(true), es, end) && !InOrder(end)
  {
    hide Rescheduled;
    var m0 := Created(true);
    var m1 := Step(o, m0, Connect(true, 0.0));
    var m2 := Step(o, m1, Opens(0));
    var m3 := Step(o, m2, Visibility(true));
    var m4 := Step(o, m3, Receives(0, Data(1)));
    var m5 := Step(o, m4, Receives(0, Null));
    RunThen(o, m0, [], m0, Connect(true, 0.0));
    RunThen(o, m0, [] + [Connect(true, 0.0)], m1, Opens(0));
    RunThen(o, m0, [] + [Connect(true, 0.0)] + [Opens(0)], m2, Visibility(true));
    RunThen(o, m0, [] + [Connect(true, 0.0)] + [Opens(0)] + [Visibility(true)], m3, Receives(0, Data(1)));
    RunThen(o, m0, [] + [Connect(true, 0.0)] + [Opens(0)] + [Visibility(true)] + [Receives(0, Data(1))], m4, Receives(0, Null));
    assert (m5.history.dispatched + m5.messageBuffer)[0] == Null && m5.history.received[0] == Data(1);
  }

  /** disconnect() while connecting: the abnormal close event that follows opens a second socket. */
  lemma LateCloseReconnects(o: Options)
    ensures exists es, end :: Run(o, Created(true), es, end) && !end.history.wanted && |end.sockets| == 2 && IsLive(end.sockets[1])
  {
    hide Backoff, Jittered;
    var m0 := Created(true);
    var m1 := Step(o, m0, Connect(true, 0.0));
    var m2 := Step(o, m1, Disconnect);
    var m3 := Step(o, m2, Closes(0, 1006, 0.0));
    assert m3.reconnectTimer == Some(1) && 1 in m3.pending;
    var m4 := Step(o, m3, TimerFires(1, true, 0.0));
    RunThen(o, m0, [], m0, Connect(true, 0.0));
    RunThen(o, m0, [] + [Connect(true, 0.0)], m1, Disconnect);
    RunThen(o, m0, [] + [Connect(true, 0.0)] + [Disconnect], m2, Closes(0, 1006, 0.0));
    RunThen(o, m0, [] + [Connect(true, 0.0)] + [Disconnect] + [Closes(0, 1006, 0.0)], m3, TimerFires(1, true, 0.0));
    assert m4.sockets == [Closed, Connecting];
  }

  /** connect() right after disconnect(): the old socket's close event hides the new connection. */
  lemma LateCloseHidesConnection(o: Options)
    ensures exists es, end :: Run(o, Created(true), es, end) && CurrentIsOpen(end) && !end.state.ShowsConnected? && !end.heartbeat
  {
    hide Rescheduled;
    var m0 := Created(true);
    var m1 := Step(o, m0, Connect(true, 0.0));
    var m2 := Step(o, m1, Disconnect);
    var m3 := Step(o, m2, Connect(true, 0.0));
    var m4 := Step(o, m3, Opens(1));
    var m5 := Step(o, m4, Closes(0, 1000, 0.0));
    RunThen(o, m0, [], m0, Connect(true, 0.0));
    RunThen(o, m0, [] + [Connect(true, 0.0)], m1, Disconnect);
    RunThen(o, m0, [] + [Connect(true, 0.0)] + [Disconnect], m2, Connect(true, 0.0));
    RunThen(o, m0, [] + [Connect(true, 0.0)] + [Disconnect] + [Connect(true, 0.0)], m3, Opens(1));
    RunThen(o, m0, [] + [Connect(true, 0.0)] + [Disconnect] + [Connect(true, 0.0)] + [Opens(1)], m4, Closes(0, 1000, 0.0));
    assert CurrentIsOpen(m5);
  }

  // ----- The class

  class Client {
    const options: Options
    var sockets: seq<ReadyState>
    var pending: map<nat, Timer>
    var nextId: nat
    var ws: Option<nat>
    var reconnectTimer: Option<nat>
    var heartbeat: bool
    var state: Shown
    var reconnectAttempts: nat
    var messageBuffer: seq<Frame>
    var isTabActive: bool
    ghost var history: History

    ghost function View(): Manager
      reads this
    {
      Manager(sockets, pending, nextId, ws, reconnectTimer, heartbeat, state,
              reconnectAttempts, messageBuffer, isTabActive, history)
    }

    constructor (options: Options, isTabActive: bool)
      ensures this.options == options && View() == Created(isTabActive)
    {
      this.options := options;
      sockets, pending, nextId, ws, reconnectTimer := [], map[], 1, None, None;
      heartbeat, state, reconnectAttempts, messageBuffer := false, ShowsDisconnected, 0, [];
      this.isTabActive := isTabActive;
      history := History([], [], [], false, false);
    }

    method ScheduleReconnect(random: real)
      modifies this
      ensures View() == Rescheduled(options, old(View()), random)
    {
      state := ShowsReconnecting;
      if reconnectTimer.Some? {
        return;
      }
      reconnectAttempts := reconnectAttempts + 1;
      var delay := Jittered(Backoff(options, reconnectAttempts), random);
      pending := pending[nextId := Timer(delay, reconnectAttempts)];
      reconnectTimer := Some(nextId);
      nextId := nextId + 1;
      history := history.(waits := history.waits + [delay]);
    }

    method TryConnect(constructs: bool, random: real)
      modifies this
      ensures View() == ConnectStep(options, old(View()), constructs, random)
    {
      if ws.Some? && ws.value < |sockets| && IsLive(sockets[ws.value]) {
        return;
      }
      state := if reconnectAttempts > 0 then ShowsReconnecting else ShowsConnecting;
      if constructs {
        ws := Some(|sockets|);
        sockets := sockets + [Connecting];
      } else {
        ScheduleReconnect(random);
      }
    }

    method Connect(constructs: bool, random: real)
      requires 0.0 <= random < 1.0
      modifies this
      ensures View() == Step(options, old(View()), Event.Connect(constructs, random))
    {
      history := history.(wanted := true);
      TryConnect(constructs, random);
    }

    method OnOpen(socket: nat)
      requires Enabled(View(), Opens(socket))
      modifies this
      ensures View() == Step(options, old(View()), Opens(socket))
    {
      sockets := sockets[socket := Open];
      reconnectAttempts := 0;
      state := ShowsConnected;
      heartbeat := true;
      history := history.(waits := [], displaced := false);
    }

    method DispatchMessage(frame: Frame)
      modifies `history
      ensures View() == Dispatched(old(View()), frame)
    {
      history := history.(dispatched := history.dispatched + [frame]);
    }

    method OnMessage(socket: nat, frame: Frame)
      requires Enabled(View(), Receives(socket, frame))
      modifies this
      ensures View() == Step(options, old(View()), Receives(socket, frame))
    {
      if frame.Pong? {
        return;
      }
      history := history.(received := history.received + [frame]);
      if frame.Data? && !isTabActive {
        messageBuffer := messageBuffer + [frame];
      } else {
        DispatchMessage(frame);
      }
    }

    method OnClose(socket: nat, code: nat, random: real)
      requires Enabled(View(), Closes(socket, code, random))
      modifies this
      ensures View() == Step(options, old(View()), Closes(socket, code, random))
    {
      history := history.(wanted := history.wanted && !(code == 1000 && ws == Some(socket)), displaced := history.displaced || ws != Some(socket));
      sockets := sockets[socket := Closed];
      heartbeat := false;
      if code != 1000 {
        ScheduleReconnect(random);
      } else {
        state := ShowsDisconnected;
      }
    }

    method FlushBuffer()
      modifies this
      ensures View() == Flushed(old(View()))
    {
      var buffered := messageBuffer;
      ghost var before := history.dispatched;
      messageBuffer := [];
      for i := 0 to |buffered|
        invariant View() == old(View()).(messageBuffer := [], history := history)
        invariant history == old(history).(dispatched := before + buffered[..i])
      {
        DispatchMessage(buffered[i]);
        assert before + buffered[..i + 1] == (before + buffered[..i]) + [buffered[i]];
      }
      assert buffered[..|buffered|] == buffered;
    }

    method OnVisibilityChange(isHidden: bool)
      modifies this
      ensures View() == Step(options, old(View()), Visibility(isHidden))
    {
      isTabActive := !isHidden;
      if isTabActive && |messageBuffer| > 0 {
        FlushBuffer();
      }
    }

    method OnTimer(id: nat, constructs: bool, random: real)
      requires Enabled(View(), TimerFires(id, constructs, random))
      modifies this
      ensures View() == Step(options, old(View()), TimerFires(id, constructs, random))
    {
      pending := pending - {id};
      reconnectTimer := None;
      TryConnect(constructs, random);
    }

    method CloseSocket()
      modifies this
      ensures View() == Step(options, old(View()), HeartbeatTimesOut)
    {
      if ws.Some? && ws.value < |sockets| && IsLive(sockets[ws.value]) {
        sockets := sockets[ws.value := Closing];
      }
    }

    method Disconnect()
      modifies this
      ensures View() == Step(options, old(View()), Event.Disconnect)
    {
      hide Rescheduled, ConnectStep, Shut, Flushed;
      if reconnectTimer.Some? {
        pending := pending - {reconnectTimer.value};
        reconnectTimer := None;
      }
      heartbeat := false;
      if ws.Some? {
        CloseSocket();
        ws := None;
      }
      state := ShowsDisconnected;
      history := history.(wanted := false);
    }
  }
}
