/**
 In-chat search of apps/chat-sim/src/MessageList.js: which messages match a query and how a
 matching text is cut into highlighted and plain segments.

 Lower-casing is a map from characters to strings, because some characters lower-case to more
 than one (U+0130 gives two). Positions found in the lower-cased text are used to slice the
 original one.
 */
module Highlight {
  import opened Prelude

  /** toLowerCase() of one character, and the characters trim() removes. */
  datatype Locale = Locale(lower: char -> string, isSpace: char -> bool)

  datatype Segment = Segment(text: string, isMatch: bool)

  datatype Message = Message(id: nat, text: Option<string>)

  // ----- Strings

  function ToLowerCase(l: Locale, s: string): string {
    if s == [] then [] else l.lower(s[0]) + ToLowerCase(l, s[1..])
  }

  function Trim(l: Locale, s: string): string {
    if s == [] then []
    else if l.isSpace(s[0]) then Trim(l, s[1..])
    else if l.isSpace(s[|s| - 1]) then Trim(l, s[..|s| - 1])
    else s
  }

  predicate Occurs(s: string, needle: string, at: nat) {
    at + |needle| <= |s| && s[at..at + |needle|] == needle
  }

  predicate Includes(s: string, needle: string) {
    exists at :: 0 <= at <= |s| && Occurs(s, needle, at)
  }

  function IndexOf(s: string, needle: string, from: nat): (at: int)
    requires needle != []
    ensures at == -1 || (from <= at && Occurs(s, needle, at))
    ensures forall k :: from <= k && (at == -1 || k < at) ==> !Occurs(s, needle, k)
    decreases |s| - from
  {
    if from + |needle| > |s| then -1
    else if Occurs(s, needle, from) then from
    else IndexOf(s, needle, from + 1)
  }

  /** `s.slice(from, to)`: positions past the end are taken back to it. */
  function Slice(s: string, from: nat, to: nat): string
    requires from <= to
  {
    s[(if from < |s| then from else |s|)..(if to < |s| then to else |s|)]
  }

  function Join(parts: seq<Segment>): string {
    if parts == [] then [] else parts[0].text + Join(parts[1..])
  }

  ghost predicate AnyMatch(parts: seq<Segment>) {
    exists i :: 0 <= i < |parts| && parts[i].isMatch
  }

  // ----- The two functions

  function Needle(l: Locale, query: Option<string>): string {
    match query case None => [] case Some(q) => ToLowerCase(l, Trim(l, q))
  }

  function Source(text: Option<string>): string {
    match text case None => [] case Some(t) => t
  }

  function FindMessageMatches(l: Locale, messages: seq<Message>, query: Option<string>): seq<nat> {
    var needle := Needle(l, query);
    if needle == [] || messages == [] then []
    else (if Includes(ToLowerCase(l, Source(messages[0].text)), needle) then [messages[0].id] else [])
         + FindMessageMatches(l, messages[1..], query)
  }

  /** The segments up to the end of the occurrence at `at`. */
  function Cut(source: string, i: nat, at: nat, n: nat): seq<Segment>
    requires i <= at
  {
    (if at > i then [Segment(Slice(source, i, at), false)] else []) + [Segment(Slice(source, at, at + n), true)]
  }

  /** The segments from position `i` on. */
  function Parts(source: string, low: string, needle: string, i: nat): seq<Segment>
    requires needle != []
    decreases |low| - i
  {
    var at := IndexOf(low, needle, i);
    if at == -1 then if i < |source| then [Segment(source[i..], false)] else []
    else Cut(source, i, at, |needle|) + Parts(source, low, needle, at + |needle|)
  }

  function Highlighted(l: Locale, text: Option<string>, query: Option<string>): seq<Segment> {
    var source, needle := Source(text), Needle(l, query);
    if needle == [] then [Segment(source, false)]
    else
      var parts := Parts(source, ToLowerCase(l, source), needle, 0);
      if |parts| > 0 then parts else [Segment(source, false)]
  }

  lemma OccursFits(s: string, needle: string, at: nat)
    requires Occurs(s, needle, at)
    ensures at + |needle| <= |s|
  {
  }

  lemma PartsNext(source: string, low: string, needle: string, i: nat, at: nat)
    requires needle != [] && IndexOf(low, needle, i) == at
    ensures Parts(source, low, needle, i) == Cut(source, i, at, |needle|) + Parts(source, low, needle, at + |needle|)
  {
  }

  lemma PartsEnd(source: string, low: string, needle: string, i: nat)
    requires needle != [] && IndexOf(low, needle, i) == -1
    ensures Parts(source, low, needle, i) == if i < |source| then [Segment(source[i..], false)] else []
  {
  }

  /** The segments built so far are those up to position `i`. */
  ghost predicate Built(parts: seq<Segment>, source: string, low: string, needle: string, i: nat)
    requires needle != []
  {
    Parts(source, low, needle, 0) == parts + Parts(source, low, needle, i)
  }

  lemma BuiltNothing(source: string, low: string, needle: string)
    requires needle != []
    ensures Built([], source, low, needle, 0)
  {
  }

  lemma BuiltGrows(parts: seq<Segment>, source: string, low: string, needle: string, i: nat, at: nat, grown: seq<Segment>)
    requires needle != [] && Built(parts, source, low, needle, i) && IndexOf(low, needle, i) == at
    requires grown == parts + Cut(source, i, at, |needle|)
    ensures Built(grown, source, low, needle, at + |needle|)
  {
    hide Parts, Cut, IndexOf, Occurs, Slice;
    PartsNext(source, low, needle, i, at);
    Regroup(parts, Cut(source, i, at, |needle|), Parts(source, low, needle, at + |needle|));
  }

  /** One or two pushes append the cut. */
  lemma Pushed(parts: seq<Segment>, source: string, i: nat, at: nat, n: nat)
    requires i <= at
    ensures (if at > i then parts + [Segment(Slice(source, i, at), false)] else parts) + [Segment(Slice(source, at, at + n), true)]
         == parts + Cut(source, i, at, n)
  {
  }

  lemma BuiltEnds(parts: seq<Segment>, source: string, low: string, needle: string, i: nat)
    requires needle != [] && Built(parts, source, low, needle, i) && IndexOf(low, needle, i) == -1
    ensures Parts(source, low, needle, 0) == if i < |source| then parts + [Segment(source[i..], false)] else parts
  {
  }

  method SplitForHighlight(l: Locale, text: Option<string>, query: Option<string>) returns (parts: seq<Segment>)
    ensures parts == Highlighted(l, text, query)
  {
    var source := Source(text);
    var needle := Needle(l, query);
    if needle == [] {
      return [Segment(source, false)];
    }
    var low := ToLowerCase(l, source);
    parts := Cutting(source, low, needle);
    if |parts| == 0 {
      parts := [Segment(source, false)];
    }
  }

  /** The loop of splitForHighlight. */
  method Cutting(source: string, low: string, needle: string) returns (parts: seq<Segment>)
    requires needle != []
    ensures parts == Parts(source, low, needle, 0)
  {
    hide *;
    parts := [];
    var i := 0;
    BuiltNothing(source, low, needle);
    while true
      invariant Built(parts, source, low, needle, i)
      decreases |low| - i
    {
      var at := IndexOf(low, needle, i);
      if at == -1 {
        BuiltEnds(parts, source, low, needle, i);
        if i < |source| {
          parts := parts + [Segment(source[i..], false)];
        }
        break;
      }
      OccursFits(low, needle, at);
      ghost var before := parts;
      if at > i {
        parts := parts + [Segment(Slice(source, i, at), false)];
      }
      parts := parts + [Segment(Slice(source, at, at + |needle|), true)];
      Pushed(before, source, i, at, |needle|);
      BuiltGrows(before, source, low, needle, i, at, parts);
      i := at + |needle|;
    }
  }

  // ----- For every lower-casing

  lemma JoinCons(first: Segment, rest: seq<Segment>)
    ensures Join([first] + rest) == first.text + Join(rest)
  {
    assert ([first] + rest)[1..] == rest;
  }

  lemma {:induction false} JoinAppend(p: seq<Segment>, q: seq<Segment>)
    ensures Join(p + q) == Join(p) + Join(q)
  {
    if p == [] {
      assert p + q == q;
    } else {
      JoinAppend(p[1..], q);
      JoinCons(p[0], p[1..]);
      JoinCons(p[0], p[1..] + q);
      hide Join;
      assert p == [p[0]] + p[1..];
      Regroup([p[0]], p[1..], q);
      Regroup(p[0].text, Join(p[1..]), Join(q));
    }
  }

  lemma CutJoins(source: string, i: nat, at: nat, n: nat)
    requires i <= at
    ensures Join(Cut(source, i, at, n)) == Slice(source, i, at + n)
  {
    var hit := Segment(Slice(source, at, at + n), true);
    assert Join([hit]) == hit.text;
    if at > i {
      var plain := Segment(Slice(source, i, at), false);
      assert ([plain] + [hit])[1..] == [hit];
    } else {
      assert [] + [hit] == [hit];
    }
  }

  lemma SliceSplits(s: string, from: nat, mid: nat)
    requires from <= mid
    ensures Slice(s, from, mid) + Slice(s, mid, mid + |s|) == Slice(s, from, from + |s|)
  {
    if mid < |s| {
      assert s[from..mid] + s[mid..|s|] == s[from..|s|];
    }
  }

  lemma {:induction false} PartsJoin(source: string, low: string, needle: string, i: nat)
    requires needle != []
    ensures Join(Parts(source, low, needle, i)) == Slice(source, i, i + |source|)
    decreases |low| - i
  {
    hide *;
    var at := IndexOf(low, needle, i);
    if at == -1 {
      EndJoins(source, low, needle, i);
    } else {
      var next := at + |needle|;
      OccursFits(low, needle, at);
      PartsJoin(source, low, needle, next);
      PartsNext(source, low, needle, i, at);
      JoinAppend(Cut(source, i, at, |needle|), Parts(source, low, needle, next));
      CutJoins(source, i, at, |needle|);
      SliceSplits(source, i, next);
    }
  }

  lemma EndJoins(source: string, low: string, needle: string, i: nat)
    requires needle != [] && IndexOf(low, needle, i) == -1
    ensures Join(Parts(source, low, needle, i)) == Slice(source, i, i + |source|)
  {
    PartsEnd(source, low, needle, i);
    hide Parts, IndexOf, Occurs;
    assert i < |source| ==> Join([Segment(source[i..], false)]) == source[i..];
  }

  lemma {:induction false} PartsMatch(source: string, low: string, needle: string)
    requires needle != []
    ensures AnyMatch(Parts(source, low, needle, 0)) <==> Includes(low, needle)
  {
    var at := IndexOf(low, needle, 0);
    var parts := Parts(source, low, needle, 0);
    if at != -1 {
      assert parts[if at > 0 then 1 else 0].isMatch;
    }
  }

  /** Whatever the characters lower-case to, the segments put together are the whole text. */
  lemma NothingIsDropped(l: Locale, text: Option<string>, query: Option<string>)
    ensures Join(Highlighted(l, text, query)) == Source(text)
  {
    var source, needle := Source(text), Needle(l, query);
    if needle != [] {
      PartsJoin(source, ToLowerCase(l, source), needle, 0);
    }
    assert Join([Segment(source, false)]) == source;
  }

  function HighlightedIds(l: Locale, messages: seq<Message>, query: Option<string>): seq<nat> {
    if messages == [] then []
    else (if exists s :: s in Highlighted(l, messages[0].text, query) && s.isMatch then [messages[0].id] else [])
         + HighlightedIds(l, messages[1..], query)
  }

  /** The messages found are exactly those shown with a highlight. */
  lemma {:induction false} FoundIsHighlighted(l: Locale, messages: seq<Message>, query: Option<string>)
    ensures FindMessageMatches(l, messages, query) == HighlightedIds(l, messages, query)
  {
    if messages != [] {
      FoundIsHighlighted(l, messages[1..], query);
      var (source, needle) := (Source(messages[0].text), Needle(l, query));
      var parts := Highlighted(l, messages[0].text, query);
      if needle != [] {
        PartsMatch(source, ToLowerCase(l, source), needle);
      }
      assert AnyMatch(parts) <==> exists s :: s in parts && s.isMatch;
    }
  }

  // ----- What the query means

  ghost predicate AllSpace(l: Locale, s: string) {
    forall i :: 0 <= i < |s| ==> l.isSpace(s[i])
  }

  /** A text that is empty or begins and ends with something else than a space. */
  predicate Bare(l: Locale, s: string) {
    s == "" || (!l.isSpace(s[0]) && !l.isSpace(s[|s| - 1]))
  }

  /** Trimming leaves a bare text and takes away all space around it. */
  lemma {:induction false} TrimIsExact(l: Locale, before: string, core: string, after: string)
    requires AllSpace(l, before) && AllSpace(l, after) && Bare(l, core)
    ensures Trim(l, before + core + after) == core
    decreases |before| + |after|
  {
    var s := before + core + after;
    if before != "" {
      assert s[0] == before[0] && s[1..] == before[1..] + core + after;
      TrimIsExact(l, before[1..], core, after);
    } else if after != "" {
      var n := |after| - 1;
      if core == "" {
        assert s == after && s[0] == after[0] && s[1..] == "" + core + after[1..];
        TrimIsExact(l, "", core, after[1..]);
      } else {
        assert s[0] == core[0] && s[|s| - 1] == after[n] && s[..|s| - 1] == "" + core + after[..n];
        TrimIsExact(l, "", core, after[..n]);
      }
    } else {
      assert s == core;
    }
  }

  lemma {:induction false} LowerAlike(l: Locale, a: string, b: string)
    requires |a| == |b| && forall i :: 0 <= i < |a| ==> l.lower(a[i]) == l.lower(b[i])
    ensures ToLowerCase(l, a) == ToLowerCase(l, b)
  {
    if a != "" {
      LowerAlike(l, a[1..], b[1..]);
    }
  }

  /**
   Queries that differ only in letter case and in space around them find the same messages and
   highlight the same segments: the messages whose lower-cased text contains the lower-cased query.
   */
  lemma QueriesAlike(l: Locale, before: string, a: string, after: string, b: string, messages: seq<Message>, text: Option<string>)
    requires AllSpace(l, before) && AllSpace(l, after) && Bare(l, a) && Bare(l, b)
    requires |a| == |b| && forall i :: 0 <= i < |a| ==> l.lower(a[i]) == l.lower(b[i])
    ensures FindMessageMatches(l, messages, Some(before + a + after)) == FindMessageMatches(l, messages, Some(b))
    ensures Highlighted(l, text, Some(before + a + after)) == Highlighted(l, text, Some(b))
    ensures Needle(l, Some(before + a + after)) == ToLowerCase(l, a)
  {
    TrimIsExact(l, before, a, after);
    TrimIsExact(l, "", b, "");
    assert "" + b + "" == b;
    LowerAlike(l, a, b);
    FindsByNeedle(l, messages, Some(before + a + after), Some(b));
  }

  lemma {:induction false} FindsByNeedle(l: Locale, messages: seq<Message>, q: Option<string>, r: Option<string>)
    requires Needle(l, q) == Needle(l, r)
    ensures FindMessageMatches(l, messages, q) == FindMessageMatches(l, messages, r)
  {
    if messages != [] {
      hide Needle;
      FindsByNeedle(l, messages[1..], q, r);
    }
  }

  // ----- When every character of the text lower-cases to one character

  predicate KeepsLength(l: Locale, s: string) {
    forall i :: 0 <= i < |s| ==> |l.lower(s[i])| == 1
  }

  lemma {:induction false} LowerAt(l: Locale, s: string)
    requires KeepsLength(l, s)
    ensures |ToLowerCase(l, s)| == |s| && forall i :: 0 <= i < |s| ==> ToLowerCase(l, s)[i] == l.lower(s[i])[0]
  {
    if s != [] {
      LowerAt(l, s[1..]);
    }
  }

  lemma LowerSlice(l: Locale, s: string, from: nat, to: nat)
    requires KeepsLength(l, s) && from <= to <= |s|
    ensures |ToLowerCase(l, s)| == |s| && ToLowerCase(l, s[from..to]) == ToLowerCase(l, s)[from..to]
  {
    LowerAt(l, s);
    LowerAt(l, s[from..to]);
  }

  /**
   A cut of the text from `i` on: no empty segment, match segments are occurrences, no
   occurrence starts inside a plain segment, and plain segments are never neighbours.
   */
  ghost predicate Tiles(parts: seq<Segment>, source: string, low: string, needle: string, i: nat)
    requires |low| == |source|
  {
    if parts == [] then i == |source|
    else
      var n := |parts[0].text|;
      && n > 0 && i + n <= |source| && parts[0].text == source[i..i + n]
      && (if parts[0].isMatch then n == |needle| && Occurs(low, needle, i)
          else (forall k :: i <= k < i + n ==> !Occurs(low, needle, k)) && (|parts| > 1 ==> parts[1].isMatch))
      && Tiles(parts[1..], source, low, needle, i + n)
  }

  lemma {:induction false} PartsTile(source: string, low: string, needle: string, i: nat)
    requires needle != [] && |low| == |source| && i <= |source|
    ensures Tiles(Parts(source, low, needle, i), source, low, needle, i)
    decreases |low| - i
  {
    hide *;
    var at := IndexOf(low, needle, i);
    if at != -1 {
      OccursFits(low, needle, at);
      PartsTile(source, low, needle, at + |needle|);
      CutTiles(source, low, needle, i, at, Parts(source, low, needle, at + |needle|));
      PartsNext(source, low, needle, i, at);
    } else {
      LastTiles(source, low, needle, i);
      PartsEnd(source, low, needle, i);
    }
  }

  lemma LastTiles(source: string, low: string, needle: string, i: nat)
    requires needle != [] && |low| == |source| && i <= |source| && forall k :: i <= k ==> !Occurs(low, needle, k)
    ensures Tiles(if i < |source| then [Segment(source[i..], false)] else [], source, low, needle, i)
  {
    hide Occurs;
    assert Tiles([], source, low, needle, |source|);
  }

  lemma CutTiles(source: string, low: string, needle: string, i: nat, at: nat, rest: seq<Segment>)
    requires needle != [] && |low| == |source| && i <= at && Occurs(low, needle, at)
    requires forall k :: i <= k < at ==> !Occurs(low, needle, k)
    requires Tiles(rest, source, low, needle, at + |needle|)
    ensures Tiles(Cut(source, i, at, |needle|) + rest, source, low, needle, i)
  {
    assert at + |needle| <= |source|;
    hide Occurs;
    var hit := Segment(Slice(source, at, at + |needle|), true);
    var tail := [hit] + rest;
    assert tail[1..] == rest && tail[0] == hit;
    assert Tiles(tail, source, low, needle, at);
    if at > i {
      var plain := Segment(Slice(source, i, at), false);
      PlainTiles(source, low, needle, i, at, tail);
      assert ([plain] + [hit]) + rest == [plain] + tail;
    } else {
      assert Cut(source, i, at, |needle|) + rest == tail;
    }
  }

  lemma PlainTiles(source: string, low: string, needle: string, i: nat, at: nat, tail: seq<Segment>)
    requires |low| == |source| && i < at <= |source| && forall k :: i <= k < at ==> !Occurs(low, needle, k)
    requires tail != [] && tail[0].isMatch && Tiles(tail, source, low, needle, at)
    ensures Tiles([Segment(source[i..at], false)] + tail, source, low, needle, i)
  {
    hide Occurs;
    var all := [Segment(source[i..at], false)] + tail;
    assert all[1..] == tail && all[0] == Segment(source[i..at], false);
  }

  /** There is only one such cut. */
  lemma {:induction false} TilingIsUnique(p: seq<Segment>, q: seq<Segment>, source: string, low: string, needle: string, i: nat)
    requires |low| == |source| && Tiles(p, source, low, needle, i) && Tiles(q, source, low, needle, i)
    ensures p == q
    decreases |p|
  {
    if p != [] && q != [] {
      FirstIsUnique(p, q, source, low, needle, i);
      TilingIsUnique(p[1..], q[1..], source, low, needle, i + |p[0].text|);
      assert p == [p[0]] + p[1..] && q == [q[0]] + q[1..];
    }
  }

  lemma FirstIsUnique(p: seq<Segment>, q: seq<Segment>, source: string, low: string, needle: string, i: nat)
    requires |low| == |source| && Tiles(p, source, low, needle, i) && Tiles(q, source, low, needle, i)
    requires p != [] && q != []
    ensures p[0] == q[0]
  {
    assert p[0].isMatch <==> Occurs(low, needle, i);
    assert q[0].isMatch <==> Occurs(low, needle, i);
    if !p[0].isMatch {
      PlainIsNotShorter(p, q, source, low, needle, i);
      PlainIsNotShorter(q, p, source, low, needle, i);
    }
  }

  lemma PlainIsNotShorter(p: seq<Segment>, q: seq<Segment>, source: string, low: string, needle: string, i: nat)
    requires |low| == |source| && Tiles(p, source, low, needle, i) && Tiles(q, source, low, needle, i)
    requires p != [] && q != [] && !p[0].isMatch && !q[0].isMatch
    ensures |p[0].text| >= |q[0].text|
  {
    var n := |p[0].text|;
    if |p| > 1 {
      assert p[1..][0] == p[1];
      assert Occurs(low, needle, i + n);
    } else {
      assert i + n == |source|;
    }
  }

  // ----- Where the highlights start

  function Starts(parts: seq<Segment>, i: nat): set<nat> {
    if parts == [] then {}
    else (if parts[0].isMatch then {i} else {}) + Starts(parts[1..], i + |parts[0].text|)
  }

  ghost predicate Covered(starts: set<nat>, p: nat, n: nat) {
    exists q :: q in starts && q < p < q + n
  }

  lemma {:induction false} StartsExactly(parts: seq<Segment>, source: string, low: string, needle: string, i: nat)
    requires |low| == |source| && needle != [] && Tiles(parts, source, low, needle, i)
    ensures forall p :: p in Starts(parts, i) ==> i <= p && p + |needle| <= |source|
    ensures forall p :: i <= p ==> (p in Starts(parts, i) <==> Occurs(low, needle, p) && !Covered(Starts(parts, i), p, |needle|))
    decreases |parts|
  {
    hide Occurs, Tiles, Starts, Covered;
    FirstTile(parts, source, low, needle, i);
    if parts != [] {
      var n := |parts[0].text|;
      StartsExactly(parts[1..], source, low, needle, i + n);
      var all, rest := Starts(parts, i), Starts(parts[1..], i + n);
      forall p | i <= p
        ensures p in all <==> Occurs(low, needle, p) && !Covered(all, p, |needle|)
      {
        OneStart(parts[0], all, rest, |needle|, i, p, Occurs(low, needle, p));
      }
    }
  }

  /** What the first segment says, or that nothing fits any more. */
  lemma FirstTile(parts: seq<Segment>, source: string, low: string, needle: string, i: nat)
    requires |low| == |source| && needle != [] && Tiles(parts, source, low, needle, i)
    ensures parts == [] ==> Starts(parts, i) == {} && forall p :: i <= p ==> !Occurs(low, needle, p)
    ensures parts != [] ==>
              var (first, n) := (parts[0], |parts[0].text|);
              && n > 0 && i + n <= |source| && Tiles(parts[1..], source, low, needle, i + n)
              && Starts(parts, i) == (if first.isMatch then {i} else {}) + Starts(parts[1..], i + n)
              && (first.isMatch ==> n == |needle| && Occurs(low, needle, i))
              && (!first.isMatch ==> forall k :: i <= k < i + n ==> !Occurs(low, needle, k))
  {
  }

  /** One more segment in front. */
  lemma OneStart(first: Segment, all: set<nat>, rest: set<nat>, n: nat, i: nat, p: nat, occurs: bool)
    requires i <= p && |first.text| > 0 && all == (if first.isMatch then {i} else {}) + rest
    requires forall q :: q in rest ==> i + |first.text| <= q
    requires i + |first.text| <= p ==> (p in rest <==> occurs && !Covered(rest, p, n))
    requires if first.isMatch then n == |first.text| && (p == i ==> occurs) else p < i + |first.text| ==> !occurs
    ensures p in all <==> occurs && !Covered(all, p, n)
  {
    if Covered(rest, p, n) {
      var q :| q in rest && q < p < q + n;
      assert q in all;
    }
    if first.isMatch && i < p < i + n {
      assert i in all;
      assert Covered(all, p, n);
    } else if Covered(all, p, n) {
      var q :| q in all && q < p < q + n;
      assert q in rest;
    }
  }

  /**
   The highlights start exactly at the occurrences of the query, ignoring case, that no earlier
   highlight runs into; and the segments are the only such cut of the text.
   */
  lemma HighlightsAreLeftmost(l: Locale, text: string, query: Option<string>, parts: seq<Segment>)
    requires KeepsLength(l, text) && text != [] && Needle(l, query) != []
    ensures |ToLowerCase(l, text)| == |text|
    ensures Tiles(parts, text, ToLowerCase(l, text), Needle(l, query), 0) <==> parts == Highlighted(l, Some(text), query)
    ensures var starts := Starts(Highlighted(l, Some(text), query), 0); var needle := Needle(l, query);
            forall p :: p in starts <==> Occurs(ToLowerCase(l, text), needle, p) && !Covered(starts, p, |needle|)
  {
    var (low, needle) := (ToLowerCase(l, text), Needle(l, query));
    LowerAt(l, text);
    PartsTile(text, low, needle, 0);
    var cut := Parts(text, low, needle, 0);
    assert cut != [];
    StartsExactly(cut, text, low, needle, 0);
    if Tiles(parts, text, low, needle, 0) {
      TilingIsUnique(parts, cut, text, low, needle, 0);
    }
  }

  /** A highlighted segment lower-cases to the query; a plain one does not contain it. */
  lemma SegmentsAreExact(l: Locale, text: string, query: Option<string>, s: Segment)
    requires KeepsLength(l, text) && Needle(l, query) != [] && s in Highlighted(l, Some(text), query)
    ensures if s.isMatch then ToLowerCase(l, s.text) == Needle(l, query) else !Includes(ToLowerCase(l, s.text), Needle(l, query))
  {
    var (low, needle) := (ToLowerCase(l, text), Needle(l, query));
    LowerAt(l, text);
    PartsTile(text, low, needle, 0);
    var cut := Parts(text, low, needle, 0);
    if cut != [] {
      TilesAreExact(l, cut, text, low, needle, 0, s);
    }
  }

  lemma {:induction false} TilesAreExact(l: Locale, parts: seq<Segment>, source: string, low: string, needle: string, i: nat, s: Segment)
    requires KeepsLength(l, source) && low == ToLowerCase(l, source) && |low| == |source|
    requires needle != [] && s in parts && Tiles(parts, source, low, needle, i)
    ensures if s.isMatch then ToLowerCase(l, s.text) == needle else !Includes(ToLowerCase(l, s.text), needle)
    decreases |parts|
  {
    if s == parts[0] {
      FirstIsExact(l, parts, source, low, needle, i);
    } else {
      hide Occurs, Includes, ToLowerCase, KeepsLength;
      TilesAreExact(l, parts[1..], source, low, needle, i + |parts[0].text|, s);
    }
  }

  lemma FirstIsExact(l: Locale, parts: seq<Segment>, source: string, low: string, needle: string, i: nat)
    requires KeepsLength(l, source) && low == ToLowerCase(l, source) && |low| == |source|
    requires needle != [] && parts != [] && Tiles(parts, source, low, needle, i)
    ensures var s := parts[0];
            if s.isMatch then ToLowerCase(l, s.text) == needle else !Includes(ToLowerCase(l, s.text), needle)
  {
    var n := |parts[0].text|;
    LowerSlice(l, source, i, i + n);
    hide ToLowerCase, KeepsLength;
    if !parts[0].isMatch {
      var mine := low[i..i + n];
      forall at | 0 <= at <= n
        ensures !Occurs(mine, needle, at)
      {
        OccursInSlice(low, needle, i, n, at);
      }
    }
  }

  lemma OccursInSlice(s: string, needle: string, i: nat, n: nat, at: nat)
    requires needle != [] && i + n <= |s| && at <= n
    ensures Occurs(s[i..i + n], needle, at) ==> at < n && Occurs(s, needle, i + at)
  {
    if at + |needle| <= n {
      var inner, outer := s[i..i + n][at..at + |needle|], s[i + at..i + at + |needle|];
      assert |inner| == |outer| && forall k :: 0 <= k < |inner| ==> inner[k] == outer[k];
    }
  }

  // ----- For every lower-casing: where the highlights sit

  /** No character lower-cases to nothing. */
  ghost predicate Sound(l: Locale) {
    forall c :: l.lower(c) != []
  }

  /** The matches in the lower-cased text, as the loop finds them. */
  function Spots(low: string, needle: string, i: nat): seq<nat>
    requires needle != []
    decreases |low| - i
  {
    var at := IndexOf(low, needle, i);
    if at == -1 then [] else [at as nat] + Spots(low, needle, at + |needle|)
  }

  /** Where the highlighted segments of a text begin and end, when the first segment begins at `from`. */
  function Marks(parts: seq<Segment>, from: nat): seq<(nat, nat)> {
    if parts == [] then []
    else
      var to := from + |parts[0].text|;
      (if parts[0].isMatch then [(from, to)] else []) + Marks(parts[1..], to)
  }

  function Clip(source: string, p: nat): nat {
    if p < |source| then p else |source|
  }

  /** The positions of a match in the lower-cased text, applied to the source. */
  function MarkOf(source: string, at: nat, n: nat): (nat, nat) {
    (Clip(source, at), Clip(source, at + n))
  }

  function MarksAt(source: string, spots: seq<nat>, n: nat): (marks: seq<(nat, nat)>)
    ensures |marks| == |spots| && forall k :: 0 <= k < |spots| ==> marks[k] == MarkOf(source, spots[k], n)
  {
    if spots == [] then [] else [MarkOf(source, spots[0], n)] + MarksAt(source, spots[1..], n)
  }

  lemma {:induction false} MarksAreAtSpots(source: string, low: string, needle: string, i: nat)
    requires needle != []
    ensures Marks(Parts(source, low, needle, i), Clip(source, i)) == MarksAt(source, Spots(low, needle, i), |needle|)
    decreases |low| - i
  {
    hide IndexOf, Occurs, Marks, MarksAt, MarkOf, Parts, Cut, Clip;
    var at := IndexOf(low, needle, i);
    if at == -1 {
      PartsEnd(source, low, needle, i);
      EndMarks(source, i, |needle|);
    } else {
      var next := at + |needle|;
      OccursFits(low, needle, at);
      PartsNext(source, low, needle, i, at);
      MarksAreAtSpots(source, low, needle, next);
      CutMarks(source, i, at, |needle|, Parts(source, low, needle, next));
      MarksAtCons(source, at, Spots(low, needle, next), |needle|);
    }
  }

  lemma EndMarks(source: string, i: nat, n: nat)
    ensures Marks(if i < |source| then [Segment(source[i..], false)] else [], Clip(source, i)) == MarksAt(source, [], n)
  {
    if i < |source| {
      assert [Segment(source[i..], false)][1..] == [];
    }
  }

  lemma MarksAtCons(source: string, at: nat, rest: seq<nat>, n: nat)
    ensures MarksAt(source, [at] + rest, n) == [MarkOf(source, at, n)] + MarksAt(source, rest, n)
  {
    assert ([at] + rest)[1..] == rest;
  }

  lemma CutMarks(source: string, i: nat, at: nat, n: nat, rest: seq<Segment>)
    requires i <= at
    ensures Marks(Cut(source, i, at, n) + rest, Clip(source, i))
         == [MarkOf(source, at, n)] + Marks(rest, Clip(source, at + n))
  {
    var hit := Segment(Slice(source, at, at + n), true);
    var tail := [hit] + rest;
    SliceLength(source, at, at + n);
    MarksCons(hit, rest, Clip(source, at));
    if at > i {
      var plain := Segment(Slice(source, i, at), false);
      SliceLength(source, i, at);
      MarksCons(plain, tail, Clip(source, i));
      hide Slice, Clip, Marks;
      assert ([plain] + [hit]) + rest == [plain] + tail;
    } else {
      hide Slice, Clip, Marks;
      assert [] + [hit] + rest == tail;
    }
  }

  lemma SliceLength(source: string, from: nat, to: nat)
    requires from <= to
    ensures Clip(source, from) + |Slice(source, from, to)| == Clip(source, to)
  {
  }

  lemma MarksCons(first: Segment, rest: seq<Segment>, from: nat)
    ensures var to := from + |first.text|;
            Marks([first] + rest, from) == (if first.isMatch then [(from, to)] else []) + Marks(rest, to)
  {
    assert ([first] + rest)[1..] == rest;
  }

  /** In order, from `i` on, none running into the next. */
  ghost predicate Spaced(spots: seq<nat>, n: nat, i: nat) {
    && (forall k :: 0 <= k < |spots| ==> i <= spots[k])
    && (forall j, k :: 0 <= j < k < |spots| ==> spots[j] + n <= spots[k])
  }

  ghost predicate AllOccur(spots: seq<nat>, low: string, needle: string) {
    forall k :: 0 <= k < |spots| ==> Occurs(low, needle, spots[k])
  }

  /** Some match covers position `p`. */
  ghost predicate Met(spots: seq<nat>, n: nat, p: nat) {
    exists k :: 0 <= k < |spots| && spots[k] <= p < spots[k] + n
  }

  lemma SpacedCons(at: nat, rest: seq<nat>, n: nat, i: nat)
    requires i <= at && Spaced(rest, n, at + n)
    ensures Spaced([at] + rest, n, i)
  {
    var all := [at] + rest;
    forall k | 0 <= k < |all|
      ensures i <= all[k] && (k > 0 ==> at + n <= all[k])
    {
      assert k > 0 ==> all[k] == rest[k - 1];
    }
    assert forall j, k :: 0 < j < k < |all| ==> all[j] == rest[j - 1] && all[k] == rest[k - 1];
  }

  lemma MetCons(at: nat, rest: seq<nat>, n: nat, p: nat)
    ensures Met([at] + rest, n, p) <==> at <= p < at + n || Met(rest, n, p)
  {
    var all := [at] + rest;
    if Met(rest, n, p) {
      var k :| 0 <= k < |rest| && rest[k] <= p < rest[k] + n;
      assert all[k + 1] == rest[k];
    }
    if at <= p < at + n {
      assert all[0] <= p < all[0] + n;
    }
    if Met(all, n, p) {
      var k :| 0 <= k < |all| && all[k] <= p < all[k] + n;
      assert k > 0 ==> rest[k - 1] == all[k];
    }
  }

  /** The matches are the leftmost occurrences: spaced, and no occurrence starts outside of them. */
  lemma {:induction false} SpotsAreLeftmost(low: string, needle: string, i: nat)
    requires needle != []
    ensures Spaced(Spots(low, needle, i), |needle|, i) && AllOccur(Spots(low, needle, i), low, needle)
    ensures forall p :: i <= p && Occurs(low, needle, p) ==> Met(Spots(low, needle, i), |needle|, p)
    decreases |low| - i
  {
    hide Occurs, Spaced, Met;
    var at := IndexOf(low, needle, i);
    if at == -1 {
      NoneSpaced(|needle|, i);
    } else {
      OccursFits(low, needle, at);
      var next := at + |needle|;
      SpotsAreLeftmost(low, needle, next);
      var rest := Spots(low, needle, next);
      SpacedCons(at, rest, |needle|, i);
      assert AllOccur([at as nat] + rest, low, needle);
      forall p | i <= p && Occurs(low, needle, p)
        ensures Met([at as nat] + rest, |needle|, p)
      {
        MetCons(at, rest, |needle|, p);
      }
    }
  }

  lemma NoneSpaced(n: nat, i: nat)
    ensures Spaced([], n, i)
  {
  }

  // ----- Lengths of lower-cased texts

  lemma {:induction false} LowerAppend(l: Locale, a: string, b: string)
    ensures ToLowerCase(l, a + b) == ToLowerCase(l, a) + ToLowerCase(l, b)
  {
    if a == [] {
      assert a + b == b;
    } else {
      assert (a + b)[0] == a[0] && (a + b)[1..] == a[1..] + b;
      LowerAppend(l, a[1..], b);
      Regroup(l.lower(a[0]), ToLowerCase(l, a[1..]), ToLowerCase(l, b));
    }
  }

  /** A lower-cased text is at least as long, and as long only if every character gives one. */
  lemma {:induction false} LowerGrows(l: Locale, s: string)
    requires Sound(l)
    ensures |ToLowerCase(l, s)| >= |s|
    ensures |ToLowerCase(l, s)| == |s| <==> KeepsLength(l, s)
  {
    if s != [] {
      LowerGrows(l, s[1..]);
      assert l.lower(s[0]) != [];
      assert KeepsLength(l, s) <==> |l.lower(s[0])| == 1 && KeepsLength(l, s[1..]) by {
        assert s == [s[0]] + s[1..];
      }
    }
  }

  /** Every character before position `p` of the text lower-cases to one. */
  predicate SingleBefore(l: Locale, text: string, p: nat) {
    p <= |text| && KeepsLength(l, text[..p])
  }

  /** A position of the lower-cased text is the same place in the text: nothing before it shifts, or it is the end. */
  lemma SamePlaceExactly(l: Locale, text: string, p: nat)
    requires Sound(l) && p <= |ToLowerCase(l, text)|
    ensures |ToLowerCase(l, text[..Clip(text, p)])| == p <==> SingleBefore(l, text, p) || p == |ToLowerCase(l, text)|
  {
    LowerGrows(l, text);
    if p <= |text| {
      LowerGrows(l, text[..p]);
      if p == |text| {
        assert text[..p] == text;
      }
    } else {
      assert text[..|text|] == text;
    }
  }

  /**
   The mark covers exactly the match at `at`: what stands before it lower-cases to what stands before
   the match, and the marked text lower-cases to the query.
   */
  ghost predicate Shows(l: Locale, text: string, mark: (nat, nat), at: nat, needle: string) {
    && mark.0 <= mark.1 <= |text| && at <= |ToLowerCase(l, text)|
    && ToLowerCase(l, text[..mark.0]) == ToLowerCase(l, text)[..at]
    && ToLowerCase(l, text[mark.0..mark.1]) == needle
  }

  lemma ShowsByLength(l: Locale, text: string, mark: (nat, nat), at: nat, needle: string)
    requires mark.0 <= mark.1 <= |text| && Occurs(ToLowerCase(l, text), needle, at)
    ensures Shows(l, text, mark, at, needle)
       <==> |ToLowerCase(l, text[..mark.0])| == at && |ToLowerCase(l, text[..mark.1])| == at + |needle|
  {
    var before, marked, after := text[..mark.0], text[mark.0..mark.1], text[mark.1..];
    assert text[..mark.1] == before + marked && text == before + (marked + after);
    LowerAppend(l, before, marked);
    LowerAppend(l, before, marked + after);
    LowerAppend(l, marked, after);
    hide ToLowerCase;
    PrefixAndNext(ToLowerCase(l, before), ToLowerCase(l, marked), ToLowerCase(l, after));
  }

  lemma PrefixAndNext(a: string, b: string, c: string)
    ensures (a + (b + c))[..|a|] == a && (a + (b + c))[|a|..|a| + |b|] == b
  {
  }

  lemma ShowsExactly(l: Locale, text: string, at: nat, needle: string)
    requires Sound(l) && needle != [] && Occurs(ToLowerCase(l, text), needle, at)
    ensures var end := at + |needle|;
            Shows(l, text, MarkOf(text, at, |needle|), at, needle)
            <==> SingleBefore(l, text, at) && (SingleBefore(l, text, end) || end == |ToLowerCase(l, text)|)
  {
    var end := at + |needle|;
    ShowsByLength(l, text, MarkOf(text, at, |needle|), at, needle);
    SamePlaceExactly(l, text, at);
    SamePlaceExactly(l, text, end);
  }

  lemma SingleBeforeIsMonotone(l: Locale, text: string, p: nat, q: nat)
    requires p <= q && SingleBefore(l, text, q)
    ensures SingleBefore(l, text, p)
  {
    assert forall i :: 0 <= i < p ==> text[..p][i] == text[..q][i];
  }

  ghost predicate AllShow(l: Locale, text: string, query: Option<string>)
    requires Needle(l, query) != []
  {
    var needle := Needle(l, query);
    var spots := Spots(ToLowerCase(l, text), needle, 0);
    var marks := Marks(Highlighted(l, Some(text), query), 0);
    |marks| == |spots| && forall k :: 0 <= k < |spots| ==> Shows(l, text, marks[k], spots[k], needle)
  }

  lemma HighlightedMarks(l: Locale, text: string, query: Option<string>)
    requires Needle(l, query) != []
    ensures var needle := Needle(l, query);
            Marks(Highlighted(l, Some(text), query), 0) == MarksAt(text, Spots(ToLowerCase(l, text), needle, 0), |needle|)
  {
    var low, needle := ToLowerCase(l, text), Needle(l, query);
    MarksAreAtSpots(text, low, needle, 0);
    assert Clip(text, 0) == 0;
    hide Parts, Spots, ToLowerCase, Needle;
    assert Marks([Segment(text, false)], 0) == [] by {
      assert [Segment(text, false)][1..] == [];
    }
  }

  /** The last match decides for all of them. */
  ghost predicate LastShows(l: Locale, text: string, spots: seq<nat>, n: nat) {
    spots == [] || var last := spots[|spots| - 1];
                   SingleBefore(l, text, last) && (SingleBefore(l, text, last + n) || last + n == |ToLowerCase(l, text)|)
  }

  lemma SpacedFromLast(spots: seq<nat>, n: nat, k: nat)
    requires Spaced(spots, n, 0) && k < |spots| - 1
    ensures spots[k] + n <= spots[|spots| - 1]
  {
  }

  lemma OccursAt(spots: seq<nat>, low: string, needle: string, k: nat)
    requires AllOccur(spots, low, needle) && k < |spots|
    ensures Occurs(low, needle, spots[k])
  {
  }

  lemma EachShows(l: Locale, text: string, needle: string, spots: seq<nat>, k: nat)
    requires Sound(l) && needle != [] && AllOccur(spots, ToLowerCase(l, text), needle) && Spaced(spots, |needle|, 0)
    requires LastShows(l, text, spots, |needle|) && k < |spots|
    ensures Shows(l, text, MarkOf(text, spots[k], |needle|), spots[k], needle)
  {
    hide SingleBefore, Shows, ToLowerCase, Occurs, Sound, AllOccur, Spaced, MarkOf;
    OccursAt(spots, ToLowerCase(l, text), needle, k);
    ShowsExactly(l, text, spots[k], needle);
    if k < |spots| - 1 {
      SpacedFromLast(spots, |needle|, k);
      SingleBeforeIsMonotone(l, text, spots[k], spots[|spots| - 1]);
      SingleBeforeIsMonotone(l, text, spots[k] + |needle|, spots[|spots| - 1]);
    }
  }

  /**
   For every lower-casing: the highlights are as many as the matches, and each covers its match,
   exactly when there is no match, or every character before the last match lower-cases to one and
   so does every character of it, unless that match ends the text.
   */
  lemma HighlightsShowMatchesExactly(l: Locale, text: string, query: Option<string>)
    requires Sound(l) && Needle(l, query) != []
    ensures var spots := Spots(ToLowerCase(l, text), Needle(l, query), 0);
            && |Marks(Highlighted(l, Some(text), query), 0)| == |spots|
            && (AllShow(l, text, query) <==> LastShows(l, text, spots, |Needle(l, query)|))
  {
    hide Highlighted, Marks, MarksAt, MarkOf, Spots, Occurs, SingleBefore, Shows, ToLowerCase, Needle, Spaced, AllOccur, Sound;
    var (low, needle) := (ToLowerCase(l, text), Needle(l, query));
    var spots := Spots(low, needle, 0);
    HighlightedMarks(l, text, query);
    SpotsAreLeftmost(low, needle, 0);
    if spots != [] {
      OccursAt(spots, low, needle, |spots| - 1);
      ShowsExactly(l, text, spots[|spots| - 1], needle);
      if LastShows(l, text, spots, |needle|) {
        forall k | 0 <= k < |spots|
          ensures Shows(l, text, MarksAt(text, spots, |needle|)[k], spots[k], needle)
        {
          EachShows(l, text, needle, spots, k);
        }
      }
    }
  }

  /** The first character of a longer image can be searched for: it is no space and in lower case. */
  ghost predicate Searchable(l: Locale) {
    forall c :: |l.lower(c)| > 1 ==> !l.isSpace(l.lower(c)[0]) && l.lower(l.lower(c)[0]) == [l.lower(c)[0]]
  }

  /** Every query is highlighted on its matches exactly when every character of the text lower-cases to one. */
  lemma EveryQueryShowsExactly(l: Locale, text: string)
    requires Sound(l) && Searchable(l)
    ensures (forall query :: Needle(l, query) != [] ==> AllShow(l, text, query)) <==> KeepsLength(l, text)
  {
    if KeepsLength(l, text) {
      forall query | Needle(l, query) != []
        ensures AllShow(l, text, query)
      {
        QueryShows(l, text, query);
      }
    } else {
      var i := FirstLong(l, text);
      var query := Some([l.lower(text[i])[0]]);
      LongIsMissed(l, text, i, query);
    }
  }

  lemma QueryShows(l: Locale, text: string, query: Option<string>)
    requires Sound(l) && Needle(l, query) != [] && KeepsLength(l, text)
    ensures AllShow(l, text, query)
  {
    hide Highlighted, Marks, Spots, ToLowerCase, Needle, Spaced, AllOccur, Sound, AllShow;
    var low, needle := ToLowerCase(l, text), Needle(l, query);
    var spots := Spots(low, needle, 0);
    LowerGrows(l, text);
    SpotsAreLeftmost(low, needle, 0);
    HighlightsShowMatchesExactly(l, text, query);
    if spots != [] {
      var last := spots[|spots| - 1];
      OccursAt(spots, low, needle, |spots| - 1);
      OccursFits(low, needle, last);
      assert text[..|text|] == text;
      SingleBeforeIsMonotone(l, text, last, |text|);
      SingleBeforeIsMonotone(l, text, last + |needle|, |text|);
    }
  }

  lemma {:induction false} FirstLong(l: Locale, text: string) returns (i: nat)
    requires Sound(l) && !KeepsLength(l, text)
    ensures i < |text| && |l.lower(text[i])| > 1 && KeepsLength(l, text[..i])
  {
    i := 0;
    while |l.lower(text[i])| == 1
      invariant i < |text| && KeepsLength(l, text[..i])
      decreases |text| - i
    {
      assert forall j :: 0 <= j < i ==> text[j] == text[..i][j];
      i := i + 1;
    }
    assert l.lower(text[i]) != [];
  }

  lemma OneCharNeedle(l: Locale, c: char)
    requires !l.isSpace(c) && l.lower(c) == [c]
    ensures Needle(l, Some([c])) == [c]
  {
    assert Trim(l, [c]) == [c];
    assert ToLowerCase(l, [c]) == [c] by {
      assert [c][1..] == [] && ToLowerCase(l, []) == [];
    }
  }

  lemma LongIsMissed(l: Locale, text: string, i: nat, query: Option<string>)
    requires Sound(l) && Searchable(l) && i < |text| && |l.lower(text[i])| > 1 && KeepsLength(l, text[..i])
    requires query == Some([l.lower(text[i])[0]])
    ensures Needle(l, query) == query.value && !AllShow(l, text, query)
  {
    var needle, low := query.value, ToLowerCase(l, text);
    OneCharNeedle(l, needle[0]);
    LowerGrows(l, text[..i]);
    ImageAt(l, text, i);
    assert low[i..i + 1][0] == low[i] && Occurs(low, needle, i);
    SpotIsMissed(l, text, i, query);
  }

  lemma SpotIsMissed(l: Locale, text: string, i: nat, query: Option<string>)
    requires Sound(l) && i < |text| && |l.lower(text[i])| > 1 && i + 1 < |ToLowerCase(l, text)|
    requires |Needle(l, query)| == 1 && Occurs(ToLowerCase(l, text), Needle(l, query), i)
    ensures !AllShow(l, text, query)
  {
    hide Highlighted, Marks, MarksAt, MarkOf, Spots, ToLowerCase, Shows, Needle, Occurs, Spaced, AllOccur, Sound;
    var needle, low := Needle(l, query), ToLowerCase(l, text);
    var spots := Spots(low, needle, 0);
    SpotsAreLeftmost(low, needle, 0);
    assert Met(spots, 1, i);
    var k :| 0 <= k < |spots| && spots[k] <= i < spots[k] + 1;
    HighlightedMarks(l, text, query);
    ShowsExactly(l, text, i, needle);
    assert text[..i + 1][i] == text[i];
    assert !SingleBefore(l, text, i + 1);
    assert !Shows(l, text, MarksAt(text, spots, 1)[k], spots[k], needle);
  }

  lemma ImageAt(l: Locale, text: string, i: nat)
    requires i < |text|
    ensures var (at, image) := (|ToLowerCase(l, text[..i])|, l.lower(text[i]));
            at + |image| <= |ToLowerCase(l, text)| && ToLowerCase(l, text)[at..at + |image|] == image
  {
    assert text == text[..i] + text[i..] && text[i..][0] == text[i];
    LowerAppend(l, text[..i], text[i..]);
  }

  /**
   U+0130 lower-cases to "i" and U+0307: searching 'b' in the text of U+0130 and 'b' highlights an
   empty segment behind the 'b'.
   */
  lemma LongLowerCaseShifts(l: Locale)
    requires l.lower('\U{0130}') == "i\U{0307}" && l.lower('b') == "b" && !l.isSpace('b')
    ensures Highlighted(l, Some("\U{0130}b"), Some("b")) == [Segment("\U{0130}b", false), Segment("", true)]
  {
    var text, low := "\U{0130}b", "i\U{0307}b";
    assert ToLowerCase(l, "b") == "b" by {
      assert "b"[1..] == "";
    }
    assert ToLowerCase(l, text) == low by {
      assert text[1..] == "b";
    }
    assert Occurs(low, "b", 2);
    assert IndexOf(low, "b", 0) == 2;
    assert Needle(l, Some("b")) == "b";
    assert Parts(text, low, "b", 3) == [];
    assert Slice(text, 0, 2) == text;
    assert Slice(text, 2, 3) == "";
  }
}
