/**
 Date separators of apps/chat-sim/src/MessageList.js: `buildRows` puts a date row before a
 message whose calendar day differs from that of the last dated message.

 Days are numbers standing for the local calendar-day key; a message without a valid timestamp
 has none. The label of a date row is left out.
 */
module DayHeaders {
  import opened Prelude

  datatype Message = Message(id: nat, day: Option<nat>)

  /** `DateRow(day)` has the id "date-<day>". */
  datatype Row = DateRow(day: nat) | MessageRow(message: Message)

  // ----- buildRows

  function RowsFor(m: Message, lastKey: Option<nat>): seq<Row> {
    (if m.day.Some? && m.day != lastKey then [DateRow(m.day.value)] else []) + [MessageRow(m)]
  }

  function NextKey(m: Message, lastKey: Option<nat>): Option<nat> {
    if m.day.Some? then m.day else lastKey
  }

  function Rows(messages: seq<Message>, lastKey: Option<nat>): seq<Row> {
    if messages == [] then []
    else RowsFor(messages[0], lastKey) + Rows(messages[1..], NextKey(messages[0], lastKey))
  }

  /** The rows built so far are those of the first `i` messages. */
  ghost predicate Built(rows: seq<Row>, messages: seq<Message>, i: nat, lastKey: Option<nat>) {
    i <= |messages| && rows + Rows(messages[i..], lastKey) == Rows(messages, None)
  }

  lemma BuiltGrows(rows: seq<Row>, messages: seq<Message>, i: nat, lastKey: Option<nat>)
    requires Built(rows, messages, i, lastKey) && i < |messages|
    ensures Built(rows + RowsFor(messages[i], lastKey), messages, i + 1, NextKey(messages[i], lastKey))
  {
    var rest := Rows(messages[i + 1..], NextKey(messages[i], lastKey));
    assert messages[i..][1..] == messages[i + 1..];
    assert Rows(messages[i..], lastKey) == RowsFor(messages[i], lastKey) + rest;
    hide Rows, RowsFor, NextKey;
    assert rows + (RowsFor(messages[i], lastKey) + rest) == (rows + RowsFor(messages[i], lastKey)) + rest;
  }

  method BuildRows(messages: seq<Message>) returns (rows: seq<Row>)
    ensures rows == Rows(messages, None)
  {
    rows := [];
    var lastKey: Option<nat> := None;
    assert messages[0..] == messages && Built(rows, messages, 0, lastKey);
    for i := 0 to |messages|
      invariant Built(rows, messages, i, lastKey)
    {
      var message := messages[i];
      BuiltGrows(rows, messages, i, lastKey);
      hide Built, Rows;
      ghost var before, keyBefore := rows, lastKey;
      if message.day.Some? {
        var key := message.day;
        if key != lastKey {
          rows := rows + [DateRow(key.value)];
          lastKey := key;
        }
      }
      rows := rows + [MessageRow(message)];
      assert rows == before + RowsFor(message, keyBefore);
    }
    assert messages[|messages|..] == [];
  }

  // ----- Nothing but date rows is added

  function MessagesOf(rows: seq<Row>): seq<Message> {
    if rows == [] then []
    else (if rows[0].MessageRow? then [rows[0].message] else []) + MessagesOf(rows[1..])
  }

  function Days(rows: seq<Row>): seq<nat> {
    if rows == [] then []
    else (if rows[0].DateRow? then [rows[0].day] else []) + Days(rows[1..])
  }

  lemma OneMessage(m: Message, lastKey: Option<nat>, rest: seq<Row>)
    ensures MessagesOf(RowsFor(m, lastKey) + rest) == [m] + MessagesOf(rest)
    ensures Days(RowsFor(m, lastKey) + rest) == (if m.day.Some? && m.day != lastKey then [m.day.value] else []) + Days(rest)
  {
    var all := RowsFor(m, lastKey) + rest;
    var tail := [MessageRow(m)] + rest;
    assert tail[1..] == rest;
    if m.day.Some? && m.day != lastKey {
      assert all == [DateRow(m.day.value)] + tail && all[1..] == tail;
    } else {
      assert all == tail;
    }
  }

  lemma {:induction false} RowsKeepMessages(messages: seq<Message>, lastKey: Option<nat>)
    ensures MessagesOf(Rows(messages, lastKey)) == messages
  {
    if messages != [] {
      RowsKeepMessages(messages[1..], NextKey(messages[0], lastKey));
      OneMessage(messages[0], lastKey, Rows(messages[1..], NextKey(messages[0], lastKey)));
    }
  }

  // ----- The date above a message is its own

  /** The day of the last date row among the first `n` rows. */
  function Header(rows: seq<Row>, n: nat): Option<nat>
    requires n <= |rows|
  {
    if n == 0 then None
    else if rows[n - 1].DateRow? then Some(rows[n - 1].day)
    else Header(rows, n - 1)
  }

  /** Every dated message stands under its own date, no date row repeats the one before it. */
  ghost predicate Dated(rows: seq<Row>) {
    && (forall n :: 0 <= n < |rows| && rows[n].MessageRow? && rows[n].message.day.Some? ==> Header(rows, n) == rows[n].message.day)
    && (forall n :: 0 <= n < |rows| && rows[n].DateRow? ==>
          Header(rows, n) != Some(rows[n].day) && n + 1 < |rows| && rows[n + 1].MessageRow? && rows[n + 1].message.day == Some(rows[n].day))
  }

  lemma {:induction false} HeaderOfPrefix(rows: seq<Row>, more: seq<Row>, n: nat)
    requires n <= |rows|
    ensures Header(rows + more, n) == Header(rows, n)
  {
    if n > 0 {
      HeaderOfPrefix(rows, more, n - 1);
    }
  }

  lemma DatedGrows(rows: seq<Row>, m: Message)
    requires Dated(rows)
    ensures var all := rows + RowsFor(m, Header(rows, |rows|));
            Dated(all) && Header(all, |all|) == NextKey(m, Header(rows, |rows|))
  {
    if m.day.Some? && m.day != Header(rows, |rows|) {
      DatedWithHeader(rows, m);
      assert RowsFor(m, Header(rows, |rows|)) == [DateRow(m.day.value), MessageRow(m)];
    } else {
      DatedWithout(rows, m);
      assert RowsFor(m, Header(rows, |rows|)) == [MessageRow(m)];
    }
  }

  lemma HeadersAgree(rows: seq<Row>, more: seq<Row>)
    ensures forall n :: 0 <= n <= |rows| ==> Header(rows + more, n) == Header(rows, n)
  {
    forall n | 0 <= n <= |rows|
      ensures Header(rows + more, n) == Header(rows, n)
    {
      HeaderOfPrefix(rows, more, n);
    }
  }

  lemma DatedWithHeader(rows: seq<Row>, m: Message)
    requires Dated(rows) && m.day.Some? && Header(rows, |rows|) != m.day
    ensures var all := rows + [DateRow(m.day.value), MessageRow(m)]; Dated(all) && Header(all, |all|) == m.day
  {
    var all := rows + [DateRow(m.day.value), MessageRow(m)];
    HeadersAgree(rows, [DateRow(m.day.value), MessageRow(m)]);
    assert Header(all, |rows| + 1) == m.day && Header(all, |all|) == m.day;
    hide Header;
    assert forall n :: 0 <= n < |rows| ==> all[n] == rows[n];
  }

  lemma DatedWithout(rows: seq<Row>, m: Message)
    requires Dated(rows) && (m.day.Some? ==> Header(rows, |rows|) == m.day)
    ensures var all := rows + [MessageRow(m)]; Dated(all) && Header(all, |all|) == Header(rows, |rows|)
  {
    var all := rows + [MessageRow(m)];
    HeadersAgree(rows, [MessageRow(m)]);
    assert Header(all, |all|) == Header(rows, |rows|);
    hide Header;
    assert forall n :: 0 <= n < |rows| ==> all[n] == rows[n];
  }

  lemma {:induction false} RowsGrow(before: seq<Row>, messages: seq<Message>)
    requires Dated(before)
    ensures Dated(before + Rows(messages, Header(before, |before|)))
    decreases |messages|
  {
    var header := Header(before, |before|);
    if messages == [] {
      assert before + [] == before;
    } else {
      var added := RowsFor(messages[0], header);
      var rest := Rows(messages[1..], NextKey(messages[0], header));
      assert Rows(messages, header) == added + rest;
      DatedGrows(before, messages[0]);
      hide Dated, RowsFor, NextKey, Rows, Header;
      RowsGrow(before + added, messages[1..]);
      Regroup(before, added, rest);
    }
  }

  /** Taking the date rows out gives the messages, and every dated message stands under its own day. */
  lemma RowsAreDated(messages: seq<Message>)
    ensures MessagesOf(Rows(messages, None)) == messages && Dated(Rows(messages, None))
  {
    RowsKeepMessages(messages, None);
    RowsGrow([], messages);
    assert [] + Rows(messages, None) == Rows(messages, None);
  }

  // ----- One date row for each day

  function DatedDays(messages: seq<Message>): seq<nat> {
    if messages == [] then []
    else (if messages[0].day.Some? then [messages[0].day.value] else []) + DatedDays(messages[1..])
  }

  /** Neighbouring repetitions taken out. */
  function Compress(days: seq<nat>, last: Option<nat>): (r: seq<nat>)
    ensures forall d :: d in r ==> d in days
    ensures forall d :: d in days ==> d in r || last == Some(d)
  {
    if days == [] then []
    else
      var rest := Compress(days[1..], Some(days[0]));
      if last == Some(days[0]) then rest else [days[0]] + rest
  }

  lemma {:induction false} DaysOfRows(messages: seq<Message>, lastKey: Option<nat>)
    ensures Days(Rows(messages, lastKey)) == Compress(DatedDays(messages), lastKey)
  {
    if messages != [] {
      var next := NextKey(messages[0], lastKey);
      DaysOfRows(messages[1..], next);
      OneMessage(messages[0], lastKey, Rows(messages[1..], next));
      var later := DatedDays(messages[1..]);
      if messages[0].day.Some? {
        assert ([messages[0].day.value] + later)[1..] == later;
      } else {
        assert [] + later == later;
      }
    }
  }

  /** Some day comes back after another day came in between. */
  ghost predicate SomeDayReturns(days: seq<nat>) {
    exists i: nat, k: nat, j: nat :: i < k < j < |days| && days[i] == days[j] && days[k] != days[i]
  }

  lemma ReturnsLater(days: seq<nat>)
    requires |days| > 1
    ensures SomeDayReturns(days) <==> SomeDayReturns(days[1..]) || (days[0] != days[1] && days[0] in days[1..])
  {
    var later := days[1..];
    if SomeDayReturns(later) {
      var i: nat, k: nat, j: nat :| i < k < j < |later| && later[i] == later[j] && later[k] != later[i];
      assert days[i + 1] == days[j + 1] && days[k + 1] != days[i + 1];
    }
    if days[0] != days[1] && days[0] in later {
      var j :| 0 <= j < |later| && later[j] == days[0];
      assert 0 < 1 < j + 1 < |days| && days[0] == days[j + 1] && days[1] != days[0];
    }
    if SomeDayReturns(days) {
      var i: nat, k: nat, j: nat :| i < k < j < |days| && days[i] == days[j] && days[k] != days[i];
      assert later[j - 1] == days[j] && later[k - 1] == days[k];
      if i > 0 {
        assert later[i - 1] == days[i];
      } else if days[0] == days[1] {
        assert later[0] == days[1] && 0 < k - 1;
      }
    }
  }

  lemma {:induction false} CompressIsDistinct(days: seq<nat>)
    ensures Distinct(Compress(days, None)) <==> !SomeDayReturns(days)
  {
    if |days| > 1 {
      CompressIsDistinct(days[1..]);
      ReturnsLater(days);
      var tail := Compress(days[1..], Some(days[0]));
      DistinctCons(days[0], tail);
      assert days[1..][0] == days[1];
    }
  }

  /**
   There is one date row for each day, and the ids of the date rows differ, exactly when no day
   comes back after another one in the order of the list.
   */
  lemma OneHeaderPerDayExactly(messages: seq<Message>)
    ensures Distinct(Days(Rows(messages, None))) <==> !SomeDayReturns(DatedDays(messages))
    ensures forall d :: d in Days(Rows(messages, None)) <==> d in DatedDays(messages)
  {
    DaysOfRows(messages, None);
    CompressIsDistinct(DatedDays(messages));
  }

  /** Three messages of two days, the first day coming back, get two date rows for it. */
  lemma ReturningDayIsHeadedTwice()
    ensures Days(Rows([Message(1, Some(8)), Message(2, Some(9)), Message(3, Some(8))], None)) == [8, 9, 8]
  {
    var messages := [Message(1, Some(8)), Message(2, Some(9)), Message(3, Some(8))];
    DaysOfRows(messages, None);
    assert messages[1..] == [Message(2, Some(9)), Message(3, Some(8))];
    assert DatedDays([Message(3, Some(8))]) == [8];
    assert DatedDays(messages[1..]) == [9, 8];
    assert DatedDays(messages) == [8, 9, 8];
    assert Compress([8], Some(9)) == [8];
    assert [9, 8][1..] == [8] && Compress([9, 8], Some(8)) == [9, 8];
    assert [8, 9, 8][1..] == [9, 8];
  }
}
