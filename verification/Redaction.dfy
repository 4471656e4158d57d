/**
 `redact` of packages/shared/src/logger.js over arbitrary object graphs.

 Objects, arrays and functions live in a heap and may be shared and cyclic. The result
 is a fresh tree. One `seen` set is threaded through the whole traversal; it guards
 objects and functions but not arrays, so arrays need a rank: no cycle runs through
 arrays alone.
 */
module Redaction {

  datatype Primitive = Null | Undefined | Truth(b: bool) | Numeric(n: int) | Text(s: string)

  datatype Value = Prim(p: Primitive) | Ref(r: nat)

  /** A heap cell; `entries` are the own enumerable properties in `Object.entries` order. */
  datatype Node =
    | ObjectNode(entries: seq<(string, Value)>)
    | FunctionNode(entries: seq<(string, Value)>)
    | ArrayNode(items: seq<Value>)

  type Heap = map<nat, Node>

  /** A redacted copy. `RawFunction` is a function stored as it is, with all of its own properties. */
  datatype Tree =
    | Leaf(p: Primitive)
    | RawFunction(r: nat)
    | Branch(fields: Fields)
    | Items(items: seq<Tree>)

  /** The properties of a copied object, in the order in which the loop fills them in. */
  datatype Fields = NoFields | Field(key: string, value: Tree, rest: Fields)

  const REDACTED_FIELDS: set<string> := {
    "password", "token", "accesstoken", "refreshtoken", "authorization",
    "cookie", "set-cookie", "x-auth-token", "privatekey", "encryptedkey",
    "secret", "apikey", "api_key", "dsn", "connectionstring"
  }

  const PLACEHOLDER := Leaf(Text("[REDACTED]"))
  const CIRCULAR := Leaf(Text("[Circular]"))

  function LowerChar(c: char): char {
    if 'A' <= c <= 'Z' then (c as int - 'A' as int + 'a' as int) as char else c
  }

  /** `toLowerCase` on ASCII letters. */
  function ToLowerCase(s: string): string {
    seq(|s|, i requires 0 <= i < |s| => LowerChar(s[i]))
  }

  predicate Listed(key: string) {
    ToLowerCase(key) in REDACTED_FIELDS
  }

  /** The same character, or the capital of the ASCII letter `d`. */
  predicate SameLetter(c: char, d: char) {
    c == d || ('A' <= c <= 'Z' && d as int - c as int == 32)
  }

  predicate SameUpToCase(key: string, name: string) {
    |key| == |name| && forall i :: 0 <= i < |key| ==> SameLetter(key[i], name[i])
  }

  /** The key is one of the fifteen names, in capital or small letters. */
  ghost predicate Sensitive(key: string) {
    || SameUpToCase(key, "password") || SameUpToCase(key, "token") || SameUpToCase(key, "accesstoken")
    || SameUpToCase(key, "refreshtoken") || SameUpToCase(key, "authorization") || SameUpToCase(key, "cookie")
    || SameUpToCase(key, "set-cookie") || SameUpToCase(key, "x-auth-token") || SameUpToCase(key, "privatekey")
    || SameUpToCase(key, "encryptedkey") || SameUpToCase(key, "secret") || SameUpToCase(key, "apikey")
    || SameUpToCase(key, "api_key") || SameUpToCase(key, "dsn") || SameUpToCase(key, "connectionstring")
  }

  lemma LowerIsName(key: string, name: string)
    requires forall i :: 0 <= i < |name| ==> !('A' <= name[i] <= 'Z')
    ensures ToLowerCase(key) == name <==> SameUpToCase(key, name)
  {
    if SameUpToCase(key, name) {
      assert forall i :: 0 <= i < |key| ==> LowerChar(key[i]) == name[i];
    }
    if ToLowerCase(key) == name {
      assert forall i :: 0 <= i < |key| ==> LowerChar(key[i]) == ToLowerCase(key)[i] == name[i];
    }
  }

  /** The lower-cased key is in the set exactly when the key is one of the names up to case. */
  lemma ListedExactly(key: string)
    ensures Listed(key) <==> Sensitive(key)
  {
    hide ToLowerCase, SameUpToCase;
    LowerIsName(key, "password");
    LowerIsName(key, "token");
    LowerIsName(key, "accesstoken");
    LowerIsName(key, "refreshtoken");
    LowerIsName(key, "authorization");
    LowerIsName(key, "cookie");
    LowerIsName(key, "set-cookie");
    LowerIsName(key, "x-auth-token");
    LowerIsName(key, "privatekey");
    LowerIsName(key, "encryptedkey");
    LowerIsName(key, "secret");
    LowerIsName(key, "apikey");
    LowerIsName(key, "api_key");
    LowerIsName(key, "dsn");
    LowerIsName(key, "connectionstring");
  }

  // ----- Graphs

  predicate InHeap(h: Heap, v: Value) {
    v.Ref? ==> v.r in h
  }

  predicate EntriesInHeap(h: Heap, entries: seq<(string, Value)>) {
    forall i :: 0 <= i < |entries| ==> InHeap(h, entries[i].1)
  }

  predicate ItemsInHeap(h: Heap, items: seq<Value>) {
    forall i :: 0 <= i < |items| ==> InHeap(h, items[i])
  }

  predicate IsArray(h: Heap, v: Value) {
    v.Ref? && v.r in h && h[v.r].ArrayNode?
  }

  predicate ItemsBelow(h: Heap, items: seq<Value>, rank: nat -> nat, top: nat) {
    forall i :: 0 <= i < |items| && IsArray(h, items[i]) ==> rank(items[i].r) < top
  }

  /** The references of the cell are in the heap, and an array inside an array has a smaller rank. */
  ghost predicate CellOk(h: Heap, r: nat, rank: nat -> nat)
    requires r in h
  {
    match h[r]
    case ObjectNode(entries) => EntriesInHeap(h, entries)
    case FunctionNode(entries) => EntriesInHeap(h, entries)
    case ArrayNode(items) => ItemsInHeap(h, items) && ItemsBelow(h, items, rank, rank(r))
  }

  /** No reference dangles and no cycle runs through arrays alone. */
  ghost predicate Graph(h: Heap, rank: nat -> nat) {
    forall r <- h.Keys :: CellOk(h, r, rank)
  }

  function ArrayRank(h: Heap, v: Value, rank: nat -> nat): nat {
    if IsArray(h, v) then 2 * rank(v.r) + 1 else 0
  }

  // ----- The traversal

  /**
   `redact(value, seen)`: the copy and the `seen` set afterwards. Recursion ends because an
   object visited for the first time leaves the unseen set, and an array step lowers the rank.
   */
  function Redact(h: Heap, v: Value, seen: set<nat>, rank: nat -> nat): (out: (Tree, set<nat>))
    requires Graph(h, rank) && InHeap(h, v)
    ensures seen <= out.1 <= seen + h.Keys
    decreases |h.Keys - seen|, 0, ArrayRank(h, v, rank), 1, 0
  {
    match v
    case Prim(p) => (Leaf(p), seen)
    case Ref(r) =>
      if h[r].ArrayNode? then
        var out := RedactItems(h, h[r].items, seen, rank, rank(r));
        (Items(out.0), out.1)
      else if r in seen then (CIRCULAR, seen)
      else
        Shrinks(h.Keys, seen, r);
        var out := RedactEntries(h, h[r].entries, seen + {r}, rank);
        (Branch(out.0), out.1)
  }

  function RedactItems(h: Heap, items: seq<Value>, seen: set<nat>, rank: nat -> nat, top: nat): (out: (seq<Tree>, set<nat>))
    requires Graph(h, rank) && ItemsInHeap(h, items) && ItemsBelow(h, items, rank, top)
    ensures seen <= out.1 <= seen + h.Keys && |out.0| == |items|
    decreases |h.Keys - seen|, 0, 2 * top, 2, |items|
  {
    if items == [] then ([], seen)
    else
      var first := Redact(h, items[0], seen, rank);
      NoGrowth(h.Keys, seen, first.1);
      var rest := RedactItems(h, items[1..], first.1, rank, top);
      ([first.0] + rest.0, rest.1)
  }

  function RedactEntries(h: Heap, entries: seq<(string, Value)>, seen: set<nat>, rank: nat -> nat): (out: (Fields, set<nat>))
    requires Graph(h, rank) && EntriesInHeap(h, entries)
    ensures seen <= out.1 <= seen + h.Keys
    decreases |h.Keys - seen|, 1, |entries|, 0, 0
  {
    if entries == [] then (NoFields, seen)
    else
      var (key, v) := entries[0];
      var first := RedactProperty(h, key, v, seen, rank);
      NoGrowth(h.Keys, seen, first.1);
      var rest := RedactEntries(h, entries[1..], first.1, rank);
      (Field(key, first.0, rest.0), rest.1)
  }

  /** The three branches of the property loop; only a non-null value of type 'object' is copied. */
  function RedactProperty(h: Heap, key: string, v: Value, seen: set<nat>, rank: nat -> nat): (out: (Tree, set<nat>))
    requires Graph(h, rank) && InHeap(h, v)
    ensures seen <= out.1 <= seen + h.Keys
    decreases |h.Keys - seen|, 0, ArrayRank(h, v, rank), 2, 0
  {
    if Listed(key) then (PLACEHOLDER, seen)
    else if v.Ref? && h[v.r].FunctionNode? then (RawFunction(v.r), seen)
    else Redact(h, v, seen, rank)
  }

  lemma Shrinks(all: set<nat>, seen: set<nat>, r: nat)
    requires r in all && r !in seen
    ensures |all - (seen + {r})| < |all - seen|
  {
    assert all - seen == (all - (seen + {r})) + {r};
  }

  lemma {:induction false} NoGrowth(all: set<nat>, seen: set<nat>, more: set<nat>)
    requires seen <= more
    ensures |all - more| <= |all - seen|
  {
    var gap := (all - seen) - (all - more);
    assert all - seen == (all - more) + gap;
  }

  // ----- What the copy is

  /**
   `t` is a copy of `v`: primitives as they are, arrays item by item, objects property by property
   under the same keys in the same order, or the marker for an object met before.
   */
  ghost predicate Mirrors(h: Heap, v: Value, t: Tree)
    decreases t, 0
  {
    match v
    case Prim(p) => t == Leaf(p)
    case Ref(r) =>
      r in h &&
      match h[r]
      case ArrayNode(items) => t.Items? && |t.items| == |items| && forall i :: 0 <= i < |items| ==> Mirrors(h, items[i], t.items[i])
      case ObjectNode(entries) => t == Leaf(Text("[Circular]")) || (t.Branch? && MirrorsEntries(h, entries, t.fields))
      case FunctionNode(entries) => t == Leaf(Text("[Circular]")) || (t.Branch? && MirrorsEntries(h, entries, t.fields))
  }

  /** A sensitive key holds the placeholder; any other one a copy, or the function itself. */
  ghost predicate MirrorsEntries(h: Heap, entries: seq<(string, Value)>, fields: Fields)
    decreases fields, 1
  {
    match fields
    case NoFields => entries == []
    case Field(key, value, rest) =>
      && entries != [] && key == entries[0].0
      && (if Sensitive(key) then value == Leaf(Text("[REDACTED]"))
          else if entries[0].1.Ref? && entries[0].1.r in h && h[entries[0].1.r].FunctionNode? then value == RawFunction(entries[0].1.r)
          else Mirrors(h, entries[0].1, value))
      && MirrorsEntries(h, entries[1..], rest)
  }

  /**
   At every depth, a key that is one of the names up to case holds the placeholder, and nothing
   else is replaced, left out, added or moved.
   */
  lemma {:induction false} CopyMirrors(h: Heap, v: Value, seen: set<nat>, rank: nat -> nat)
    requires Graph(h, rank) && InHeap(h, v)
    ensures Mirrors(h, v, Redact(h, v, seen, rank).0)
    decreases |h.Keys - seen|, 0, ArrayRank(h, v, rank), 1, 0
  {
    if v.Ref? {
      if h[v.r].ArrayNode? {
        ItemsMirror(h, h[v.r].items, seen, rank, rank(v.r));
      } else if v.r !in seen {
        Shrinks(h.Keys, seen, v.r);
        EntriesMirror(h, h[v.r].entries, seen + {v.r}, rank);
      }
    }
  }

  lemma {:induction false} ItemsMirror(h: Heap, items: seq<Value>, seen: set<nat>, rank: nat -> nat, top: nat)
    requires Graph(h, rank) && ItemsInHeap(h, items) && ItemsBelow(h, items, rank, top)
    ensures var ts := RedactItems(h, items, seen, rank, top).0;
            |ts| == |items| && forall i :: 0 <= i < |items| ==> Mirrors(h, items[i], ts[i])
    decreases |h.Keys - seen|, 0, 2 * top, 2, |items|
  {
    if items != [] {
      var middle, after := ItemsStep(h, items, seen, rank, top);
      CopyMirrors(h, items[0], seen, rank);
      ItemsMirror(h, items[1..], middle, rank, top);
      var (ts, rest) := (RedactItems(h, items, seen, rank, top).0, RedactItems(h, items[1..], middle, rank, top).0);
      hide Mirrors;
      assert ts[0] == Redact(h, items[0], seen, rank).0 && ts[1..] == rest;
      forall i | 0 < i < |items|
        ensures Mirrors(h, items[i], ts[i])
      {
        assert items[i] == items[1..][i - 1] && ts[i] == rest[i - 1];
      }
    }
  }

  lemma {:induction false} EntriesMirror(h: Heap, entries: seq<(string, Value)>, seen: set<nat>, rank: nat -> nat)
    requires Graph(h, rank) && EntriesInHeap(h, entries)
    ensures MirrorsEntries(h, entries, RedactEntries(h, entries, seen, rank).0)
    decreases |h.Keys - seen|, 1, |entries|, 0, 0
  {
    if entries != [] {
      var middle, after := EntriesStep(h, entries, seen, rank);
      ListedExactly(entries[0].0);
      if Copies(h, entries[0]) {
        CopyMirrors(h, entries[0].1, seen, rank);
      }
      EntriesMirror(h, entries[1..], middle, rank);
      hide Listed, Sensitive;
    }
  }

  // ----- Which objects are copied

  /** The property is neither replaced nor stored as it is. */
  predicate Copies(h: Heap, entry: (string, Value)) {
    !Listed(entry.0) && !(entry.1.Ref? && entry.1.r in h && h[entry.1.r].FunctionNode?)
  }

  /** The property values that are copied. */
  function Copied(h: Heap, entries: seq<(string, Value)>): seq<Value> {
    if entries == [] then []
    else (if Copies(h, entries[0]) then [entries[0].1] else []) + Copied(h, entries[1..])
  }

  /** The values `redact` follows out of a heap cell. */
  function Followed(h: Heap, r: nat): seq<Value>
    requires r in h
  {
    if h[r].ArrayNode? then h[r].items else Copied(h, h[r].entries)
  }

  ghost predicate Follows(h: Heap, r: nat, w: Value)
    requires r in h
  {
    w in Followed(h, r)
  }

  /** `path` starts at the cell `v` refers to and takes copied edges only. */
  ghost predicate PathFrom(h: Heap, v: Value, path: seq<nat>)
    decreases |path|
  {
    && path != [] && v == Ref(path[0]) && path[0] in h
    && (|path| > 1 ==> Follows(h, path[0], Ref(path[1])) && PathFrom(h, Ref(path[1]), path[1..]))
  }

  ghost predicate Reaches(h: Heap, v: Value, r: nat) {
    exists path :: PathFrom(h, v, path) && path[|path| - 1] == r
  }

  lemma ReachesItself(h: Heap, r: nat)
    requires r in h
    ensures Reaches(h, Ref(r), r)
  {
    assert PathFrom(h, Ref(r), [r]);
  }

  lemma ReachesThrough(h: Heap, r: nat, w: Value, target: nat)
    requires r in h && Follows(h, r, w) && Reaches(h, w, target)
    ensures Reaches(h, Ref(r), target)
  {
    var path :| PathFrom(h, w, path) && path[|path| - 1] == target;
    var longer := [r] + path;
    assert longer[1..] == path;
    assert PathFrom(h, Ref(r), longer);
  }

  /** Every object that arrays alone lead to from `v` is in `s`. */
  ghost predicate Covered(h: Heap, v: Value, s: set<nat>, rank: nat -> nat)
    requires Graph(h, rank) && InHeap(h, v)
    decreases ArrayRank(h, v, rank)
  {
    v.Ref? ==>
      match h[v.r]
      case ArrayNode(items) => (assert ItemsBelow(h, items, rank, rank(v.r)); forall i :: 0 <= i < |items| ==> Covered(h, items[i], s, rank))
      case _ => v.r in s
  }

  lemma {:induction false} CoveredGrows(h: Heap, v: Value, s: set<nat>, t: set<nat>, rank: nat -> nat)
    requires Graph(h, rank) && InHeap(h, v) && Covered(h, v, s, rank) && s <= t
    ensures Covered(h, v, t, rank)
    decreases ArrayRank(h, v, rank)
  {
    if v.Ref? && h[v.r].ArrayNode? {
      var items := h[v.r].items;
      assert ItemsBelow(h, items, rank, rank(v.r));
      forall i | 0 <= i < |items|
        ensures Covered(h, items[i], t, rank)
      {
        CoveredGrows(h, items[i], s, t, rank);
      }
    }
  }

  /** All that `redact` follows out of `r` is covered by `s`. */
  ghost predicate Expanded(h: Heap, r: nat, s: set<nat>, rank: nat -> nat)
    requires Graph(h, rank) && r in h
  {
    !h[r].ArrayNode? && forall w :: Follows(h, r, w) ==> InHeap(h, w) && Covered(h, w, s, rank)
  }

  lemma ExpandedGrows(h: Heap, r: nat, s: set<nat>, t: set<nat>, rank: nat -> nat)
    requires Graph(h, rank) && r in h && Expanded(h, r, s, rank) && s <= t
    ensures Expanded(h, r, t, rank)
  {
    forall w | Follows(h, r, w)
      ensures InHeap(h, w) && Covered(h, w, t, rank)
    {
      CoveredGrows(h, w, s, t, rank);
    }
  }

  /** From `v` everything new between `seen` and `after` is reached, and it is all expanded. */
  ghost predicate Explored(h: Heap, v: Value, seen: set<nat>, after: set<nat>, rank: nat -> nat)
    requires Graph(h, rank)
  {
    && InHeap(h, v) && after <= h.Keys + seen && Covered(h, v, after, rank)
    && (forall r :: r in after && r !in seen ==> r in h && Expanded(h, r, after, rank) && Reaches(h, v, r))
  }

  ghost predicate ReachedByOne(h: Heap, values: seq<Value>, r: nat) {
    exists w :: w in values && Reaches(h, w, r)
  }

  ghost predicate AllExplored(h: Heap, values: seq<Value>, seen: set<nat>, after: set<nat>, rank: nat -> nat)
    requires Graph(h, rank)
  {
    && (forall w :: w in values ==> InHeap(h, w) && Covered(h, w, after, rank))
    && (forall r :: r in after && r !in seen ==> r in h && Expanded(h, r, after, rank) && ReachedByOne(h, values, r))
  }

  lemma ExploredCell(h: Heap, r: nat, seen: set<nat>, after: set<nat>, rank: nat -> nat)
    requires Graph(h, rank) && r in h && after <= h.Keys + seen
    requires AllExplored(h, Followed(h, r), if h[r].ArrayNode? then seen else seen + {r}, after, rank)
    requires !h[r].ArrayNode? ==> r in after
    ensures Explored(h, Ref(r), seen, after, rank)
  {
    forall x | x in after && x !in seen
      ensures Reaches(h, Ref(r), x)
    {
      if x == r {
        ReachesItself(h, r);
      } else {
        var w :| w in Followed(h, r) && Reaches(h, w, x);
        ReachesThrough(h, r, w, x);
      }
    }
    if h[r].ArrayNode? {
      assert forall i :: 0 <= i < |h[r].items| ==> h[r].items[i] in Followed(h, r);
    }
  }

  lemma ExploredCons(h: Heap, values: seq<Value>, seen: set<nat>, middle: set<nat>, after: set<nat>, rank: nat -> nat)
    requires Graph(h, rank) && values != [] && middle <= after
    requires Explored(h, values[0], seen, middle, rank) && AllExplored(h, values[1..], middle, after, rank)
    ensures AllExplored(h, values, seen, after, rank)
  {
    forall w | w in values
      ensures InHeap(h, w) && Covered(h, w, after, rank)
    {
      if w == values[0] {
        CoveredGrows(h, w, middle, after, rank);
      } else {
        assert w in values[1..];
      }
    }
    forall r | r in after && r !in seen
      ensures r in h && Expanded(h, r, after, rank) && ReachedByOne(h, values, r)
    {
      if r in middle {
        ExpandedGrows(h, r, middle, after, rank);
        assert values[0] in values;
      } else {
        var w :| w in values[1..] && Reaches(h, w, r);
        assert w in values;
      }
    }
  }

  lemma {:induction false} RedactExplores(h: Heap, v: Value, seen: set<nat>, rank: nat -> nat)
    requires Graph(h, rank) && InHeap(h, v)
    ensures Explored(h, v, seen, Redact(h, v, seen, rank).1, rank)
    decreases |h.Keys - seen|, 0, ArrayRank(h, v, rank), 1, 0
  {
    if v.Ref? {
      if h[v.r].ArrayNode? {
        ItemsExplore(h, h[v.r].items, seen, rank, rank(v.r));
        ExploredCell(h, v.r, seen, Redact(h, v, seen, rank).1, rank);
      } else if v.r !in seen {
        Shrinks(h.Keys, seen, v.r);
        EntriesExplore(h, h[v.r].entries, seen + {v.r}, rank);
        ExploredCell(h, v.r, seen, Redact(h, v, seen, rank).1, rank);
      }
    }
  }

  lemma {:induction false} ItemsExplore(h: Heap, items: seq<Value>, seen: set<nat>, rank: nat -> nat, top: nat)
    requires Graph(h, rank) && ItemsInHeap(h, items) && ItemsBelow(h, items, rank, top)
    ensures AllExplored(h, items, seen, RedactItems(h, items, seen, rank, top).1, rank)
    decreases |h.Keys - seen|, 0, 2 * top, 2, |items|
  {
    if items == [] {
      NothingExplored(h, seen, rank);
    } else {
      var middle, after := ItemsStep(h, items, seen, rank, top);
      RedactExplores(h, items[0], seen, rank);
      ItemsExplore(h, items[1..], middle, rank, top);
      ExploredCons(h, items, seen, middle, after, rank);
    }
  }

  lemma {:induction false} EntriesExplore(h: Heap, entries: seq<(string, Value)>, seen: set<nat>, rank: nat -> nat)
    requires Graph(h, rank) && EntriesInHeap(h, entries)
    ensures AllExplored(h, Copied(h, entries), seen, RedactEntries(h, entries, seen, rank).1, rank)
    decreases |h.Keys - seen|, 1, |entries|, 0, 0
  {
    if entries == [] {
      NothingExplored(h, seen, rank);
    } else {
      var middle, after := EntriesStep(h, entries, seen, rank);
      EntriesExplore(h, entries[1..], middle, rank);
      if Copies(h, entries[0]) {
        RedactExplores(h, entries[0].1, seen, rank);
      }
      PropertyExplored(h, entries, seen, middle, after, rank);
    }
  }

  lemma PropertyExplored(h: Heap, entries: seq<(string, Value)>, seen: set<nat>, middle: set<nat>, after: set<nat>, rank: nat -> nat)
    requires Graph(h, rank) && entries != [] && middle <= after && AllExplored(h, Copied(h, entries[1..]), middle, after, rank)
    requires if Copies(h, entries[0]) then Explored(h, entries[0].1, seen, middle, rank) else middle == seen
    ensures AllExplored(h, Copied(h, entries), seen, after, rank)
  {
    hide *;
    CopiedStep(h, entries);
    if Copies(h, entries[0]) {
      ExploredCons(h, Copied(h, entries), seen, middle, after, rank);
    }
  }

  lemma CopiedStep(h: Heap, entries: seq<(string, Value)>)
    requires entries != []
    ensures var values := Copied(h, entries);
            if Copies(h, entries[0]) then values != [] && values[0] == entries[0].1 && values[1..] == Copied(h, entries[1..])
            else values == Copied(h, entries[1..])
  {
    hide Listed;
  }

  lemma NothingExplored(h: Heap, seen: set<nat>, rank: nat -> nat)
    requires Graph(h, rank)
    ensures AllExplored(h, [], seen, seen, rank)
  {
  }

  /** One step of the array loop: the `seen` set after the first item, and after all of them. */
  lemma {:induction false} ItemsStep(h: Heap, items: seq<Value>, seen: set<nat>, rank: nat -> nat, top: nat)
    returns (middle: set<nat>, after: set<nat>)
    requires Graph(h, rank) && ItemsInHeap(h, items) && ItemsBelow(h, items, rank, top) && items != []
    ensures InHeap(h, items[0]) && ItemsInHeap(h, items[1..]) && ItemsBelow(h, items[1..], rank, top)
    ensures ArrayRank(h, items[0], rank) <= 2 * top
    ensures middle == Redact(h, items[0], seen, rank).1 && seen <= middle <= after && |h.Keys - middle| <= |h.Keys - seen|
    ensures after == RedactItems(h, items[1..], middle, rank, top).1 == RedactItems(h, items, seen, rank, top).1
    ensures RedactItems(h, items, seen, rank, top).0
         == [Redact(h, items[0], seen, rank).0] + RedactItems(h, items[1..], middle, rank, top).0
  {
    middle := Redact(h, items[0], seen, rank).1;
    NoGrowth(h.Keys, seen, middle);
    after := RedactItems(h, items[1..], middle, rank, top).1;
  }

  /** One step of the property loop. */
  lemma {:induction false} EntriesStep(h: Heap, entries: seq<(string, Value)>, seen: set<nat>, rank: nat -> nat)
    returns (middle: set<nat>, after: set<nat>)
    requires Graph(h, rank) && EntriesInHeap(h, entries) && entries != []
    ensures InHeap(h, entries[0].1) && EntriesInHeap(h, entries[1..])
    ensures middle == RedactProperty(h, entries[0].0, entries[0].1, seen, rank).1
    ensures seen <= middle <= after && |h.Keys - middle| <= |h.Keys - seen|
    ensures Copies(h, entries[0]) ==> middle == Redact(h, entries[0].1, seen, rank).1
    ensures !Copies(h, entries[0]) ==> middle == seen
    ensures after == RedactEntries(h, entries[1..], middle, rank).1 == RedactEntries(h, entries, seen, rank).1
    ensures RedactEntries(h, entries, seen, rank).0
         == Field(entries[0].0, RedactProperty(h, entries[0].0, entries[0].1, seen, rank).0, RedactEntries(h, entries[1..], middle, rank).0)
  {
    middle := RedactProperty(h, entries[0].0, entries[0].1, seen, rank).1;
    NoGrowth(h.Keys, seen, middle);
    after := RedactEntries(h, entries[1..], middle, rank).1;
  }

  lemma {:induction false} CoveredReaches(h: Heap, v: Value, s: set<nat>, rank: nat -> nat, path: seq<nat>)
    requires Graph(h, rank) && InHeap(h, v) && Covered(h, v, s, rank)
    requires forall r :: r in s ==> r in h && Expanded(h, r, s, rank)
    requires PathFrom(h, v, path)
    ensures path[|path| - 1] in h && (!h[path[|path| - 1]].ArrayNode? ==> path[|path| - 1] in s)
    decreases |path|
  {
    if |path| > 1 {
      if h[path[0]].ArrayNode? {
        var i :| 0 <= i < |h[path[0]].items| && h[path[0]].items[i] == Ref(path[1]);
      } else {
        assert Expanded(h, path[0], s, rank);
      }
      CoveredReaches(h, Ref(path[1]), s, rank, path[1..]);
    }
  }

  /** The objects visited are exactly those reachable from the argument along the edges `redact` follows. */
  lemma VisitsTheReachable(h: Heap, v: Value, rank: nat -> nat, r: nat)
    requires Graph(h, rank) && InHeap(h, v) && r in h && !h[r].ArrayNode?
    ensures r in Redact(h, v, {}, rank).1 <==> Reaches(h, v, r)
  {
    var after := Redact(h, v, {}, rank).1;
    RedactExplores(h, v, {}, rank);
    if Reaches(h, v, r) {
      var path :| PathFrom(h, v, path) && path[|path| - 1] == r;
      CoveredReaches(h, v, after, rank, path);
    }
  }

  // ----- What the copy still shows

  /** No listed key at any depth holds anything but the placeholder; `ok` judges the functions stored as they are. */
  ghost predicate Clean(t: Tree, ok: nat -> bool) {
    match t
    case Leaf(_) => true
    case RawFunction(r) => ok(r)
    case Branch(fields) => CleanFields(fields, ok)
    case Items(items) => forall i :: 0 <= i < |items| ==> Clean(items[i], ok)
  }

  ghost predicate CleanFields(fields: Fields, ok: nat -> bool) {
    match fields
    case NoFields => true
    case Field(key, value, rest) =>
      (if Listed(key) then value == PLACEHOLDER else Clean(value, ok)) && CleanFields(rest, ok)
  }

  ghost predicate CleanItems(items: seq<Tree>, ok: nat -> bool) {
    forall i :: 0 <= i < |items| ==> Clean(items[i], ok)
  }

  /** An unlisted property that holds a function, which `redact` stores as it is, only holds one that `ok` accepts. */
  ghost predicate EntriesAccepted(h: Heap, entries: seq<(string, Value)>, ok: nat -> bool) {
    forall i :: 0 <= i < |entries| && !Listed(entries[i].0) && !Copies(h, entries[i]) ==> ok(entries[i].1.r)
  }

  /** No object or function among `cells` has a property holding a function that `ok` rejects. */
  ghost predicate Accepted(h: Heap, cells: iset<nat>, ok: nat -> bool) {
    forall r :: r in cells && r in h && !h[r].ArrayNode? ==> EntriesAccepted(h, h[r].entries, ok)
  }

  function New(after: set<nat>, seen: set<nat>): iset<nat> {
    iset r | r in after && r !in seen
  }

  lemma {:induction false} RedactCleanExactly(h: Heap, v: Value, seen: set<nat>, rank: nat -> nat, ok: nat -> bool)
    requires Graph(h, rank) && InHeap(h, v)
    ensures var (t, after) := Redact(h, v, seen, rank); Clean(t, ok) <==> Accepted(h, New(after, seen), ok)
    decreases |h.Keys - seen|, 0, ArrayRank(h, v, rank), 1, 0
  {
    if v.Ref? {
      var after := Redact(h, v, seen, rank).1;
      if h[v.r].ArrayNode? {
        ItemsCleanExactly(h, h[v.r].items, seen, rank, rank(v.r), ok);
      } else if v.r !in seen {
        Shrinks(h.Keys, seen, v.r);
        EntriesCleanExactly(h, h[v.r].entries, seen + {v.r}, rank, ok);
        assert New(after, seen) == New(after, seen + {v.r}) + iset{v.r};
      }
    }
  }

  lemma {:induction false} ItemsCleanExactly(h: Heap, items: seq<Value>, seen: set<nat>, rank: nat -> nat, top: nat, ok: nat -> bool)
    requires Graph(h, rank) && ItemsInHeap(h, items) && ItemsBelow(h, items, rank, top)
    ensures var (ts, after) := RedactItems(h, items, seen, rank, top); CleanItems(ts, ok) <==> Accepted(h, New(after, seen), ok)
    decreases |h.Keys - seen|, 0, 2 * top, 2, |items|
  {
    if items != [] {
      var middle, after := ItemsStep(h, items, seen, rank, top);
      RedactCleanExactly(h, items[0], seen, rank, ok);
      ItemsCleanExactly(h, items[1..], middle, rank, top, ok);
      CleanItemsCons(Redact(h, items[0], seen, rank).0, RedactItems(h, items[1..], middle, rank, top).0, ok);
      AcceptedSplit(h, seen, middle, after, ok);
    }
  }

  lemma {:induction false} EntriesCleanExactly(h: Heap, entries: seq<(string, Value)>, seen: set<nat>, rank: nat -> nat, ok: nat -> bool)
    requires Graph(h, rank) && EntriesInHeap(h, entries)
    ensures var (ts, after) := RedactEntries(h, entries, seen, rank);
            CleanFields(ts, ok) <==> EntriesAccepted(h, entries, ok) && Accepted(h, New(after, seen), ok)
    decreases |h.Keys - seen|, 1, |entries|, 0, 0
  {
    if entries != [] {
      var (key, v) := entries[0];
      var middle, after := EntriesStep(h, entries, seen, rank);
      if Copies(h, entries[0]) {
        RedactCleanExactly(h, v, seen, rank, ok);
      }
      EntriesCleanExactly(h, entries[1..], middle, rank, ok);
      EntriesAcceptedCons(h, entries, ok);
      AcceptedSplit(h, seen, middle, after, ok);
    }
  }

  lemma CleanItemsCons(t: Tree, ts: seq<Tree>, ok: nat -> bool)
    ensures CleanItems([t] + ts, ok) <==> Clean(t, ok) && CleanItems(ts, ok)
  {
    var all := [t] + ts;
    assert all[0] == t && forall i :: 0 <= i < |ts| ==> ts[i] == all[i + 1];
  }

  lemma EntriesAcceptedCons(h: Heap, entries: seq<(string, Value)>, ok: nat -> bool)
    requires entries != []
    ensures EntriesAccepted(h, entries, ok)
            <==> (!Listed(entries[0].0) && !Copies(h, entries[0]) ==> ok(entries[0].1.r)) && EntriesAccepted(h, entries[1..], ok)
  {
    var rest := entries[1..];
    assert forall i :: 0 <= i < |rest| ==> rest[i] == entries[i + 1];
  }

  lemma AcceptedSplit(h: Heap, seen: set<nat>, middle: set<nat>, after: set<nat>, ok: nat -> bool)
    requires seen <= middle <= after
    ensures Accepted(h, New(after, seen), ok) <==> Accepted(h, New(middle, seen), ok) && Accepted(h, New(after, middle), ok)
  {
    assert New(after, seen) == New(middle, seen) + New(after, middle);
  }

  /** A listed key with a value other than the placeholder can be reached from the properties of cell `f`. */
  ghost predicate Exposes(h: Heap, f: nat) {
    exists path, r, i ::
      && RawPath(h, f, path) && r == path[|path| - 1] && !h[r].ArrayNode? && 0 <= i < |h[r].entries|
      && Listed(h[r].entries[i].0) && h[r].entries[i].1 != Prim(Text("[REDACTED]"))
  }

  ghost predicate RawPath(h: Heap, f: nat, path: seq<nat>) {
    && path != [] && path[0] == f
    && (forall i :: 0 <= i < |path| ==> path[i] in h)
    && (forall i :: 0 <= i < |path| - 1 ==> Leads(h, path[i], path[i + 1]))
  }

  ghost predicate Leads(h: Heap, r: nat, w: nat)
    requires r in h
  {
    if h[r].ArrayNode? then Ref(w) in h[r].items
    else exists i :: 0 <= i < |h[r].entries| && h[r].entries[i].1 == Ref(w)
  }

  /**
   Whether a listed key survives anywhere in the copy, exactly: it does not if and only if no
   object reachable along copied edges has an unlisted property whose value is a function
   that itself leads to a listed key. Without function-valued properties the copy is always clean.
   */
  lemma RedactHidesListedKeys(h: Heap, v: Value, rank: nat -> nat)
    requires Graph(h, rank) && InHeap(h, v)
    ensures Clean(Redact(h, v, {}, rank).0, (f: nat) => !Exposes(h, f))
            <==> Accepted(h, ReachableCells(h, v), (f: nat) => !Exposes(h, f))
    ensures forall key :: Listed(key) <==> Sensitive(key)
  {
    forall key
      ensures Listed(key) <==> Sensitive(key)
    {
      ListedExactly(key);
    }
    var after := Redact(h, v, {}, rank).1;
    RedactCleanExactly(h, v, {}, rank, (f: nat) => !Exposes(h, f));
    forall r | r in h && !h[r].ArrayNode?
      ensures r in New(after, {}) <==> r in ReachableCells(h, v)
    {
      VisitsTheReachable(h, v, rank, r);
    }
  }

  ghost function ReachableCells(h: Heap, v: Value): iset<nat> {
    iset r: nat | Reaches(h, v, r)
  }

  const LEAKY: Heap := map[0 := ObjectNode([("handler", Ref(1))]), 1 := FunctionNode([("token", Prim(Text("abc")))])]

  /** A function-valued property keeps the listed key that sits on the function. */
  lemma FunctionPropertyLeaks()
    ensures Graph(LEAKY, r => 0)
    ensures Redact(LEAKY, Ref(0), {}, r => 0).0 == Branch(Field("handler", RawFunction(1), NoFields))
    ensures Exposes(LEAKY, 1)
  {
    assert !Listed("handler") by {
      assert ToLowerCase("handler") == "handler";
    }
    LeakyFunctionExposes();
    LeakyCopy(r => 0);
  }

  lemma LeakyCopy(rank: nat -> nat)
    requires Graph(LEAKY, rank) && !Listed("handler")
    ensures Redact(LEAKY, Ref(0), {}, rank).0 == Branch(Field("handler", RawFunction(1), NoFields))
  {
    var entries := [("handler", Ref(1))];
    assert LEAKY[0] == ObjectNode(entries);
    var none: set<nat> := {};
    assert 0 !in none && none + {0} == {0};
    var middle, after := EntriesStep(LEAKY, entries, {0}, rank);
    assert RedactEntries(LEAKY, entries[1..], middle, rank).0 == NoFields;
  }

  lemma LeakyFunctionExposes()
    ensures Exposes(LEAKY, 1)
  {
    assert Listed("token") by {
      assert ToLowerCase("token") == "token";
    }
    assert RawPath(LEAKY, 1, [1]);
    assert LEAKY[1].entries[0] == ("token", Prim(Text("abc")));
  }
}
