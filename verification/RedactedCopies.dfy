/**
 Redacting what `redact` returned (packages/shared/src/logger.js).

 A copy is a tree of fresh objects. This module lays such a tree out in a heap, shows
 that on it `redact` is the simple recursion `RedactTree`, and that a copy is a
 fixpoint of that recursion. It also holds the function as it runs: loops that fill a
 result and a `seen` set updated in place.
 */
module RedactedCopies {
  import opened Prelude
  import opened Redaction

  // ----- Redaction of a tree

  function RedactTree(t: Tree): Tree {
    match t
    case Leaf(_) => t
    case RawFunction(_) => t
    case Branch(fields) => Branch(RedactFields(fields))
    case Items(items) => Items(RedactTrees(items))
  }

  function RedactFields(fields: Fields): Fields {
    match fields
    case NoFields => NoFields
    case Field(key, value, rest) => Field(key, if Listed(key) then PLACEHOLDER else RedactTree(value), RedactFields(rest))
  }

  function RedactTrees(items: seq<Tree>): seq<Tree> {
    if items == [] then [] else [RedactTree(items[0])] + RedactTrees(items[1..])
  }

  /** A tree that `redact` can have made: every listed key holds the placeholder, and functions stand directly under a property. */
  predicate Redacted(t: Tree, functions: set<nat>)
    decreases t, 0
  {
    match t
    case Leaf(_) => true
    case RawFunction(_) => false
    case Branch(fields) => RedactedFields(fields, functions)
    case Items(items) => RedactedItems(items, functions)
  }

  predicate RedactedFields(fields: Fields, functions: set<nat>)
    decreases fields, 0
  {
    match fields
    case NoFields => true
    case Field(key, value, rest) => RedactedProperty(key, value, functions) && RedactedFields(rest, functions)
  }

  predicate RedactedProperty(key: string, value: Tree, functions: set<nat>)
    decreases value, 1
  {
    if Listed(key) then value == PLACEHOLDER
    else if value.RawFunction? then value.r in functions
    else Redacted(value, functions)
  }

  predicate RedactedItems(items: seq<Tree>, functions: set<nat>)
    decreases items, 0
  {
    items == [] || (Redacted(items[0], functions) && RedactedItems(items[1..], functions))
  }

  function FunctionsOf(h: Heap): set<nat> {
    set r | r in h && h[r].FunctionNode?
  }

  lemma {:induction false} CopyIsRedacted(h: Heap, v: Value, seen: set<nat>, rank: nat -> nat)
    requires Graph(h, rank) && InHeap(h, v)
    ensures Redacted(Redact(h, v, seen, rank).0, FunctionsOf(h))
    ensures forall key :: Listed(key) <==> Sensitive(key)
    decreases |h.Keys - seen|, 0, ArrayRank(h, v, rank), 1, 0
  {
    forall key
      ensures Listed(key) <==> Sensitive(key)
    {
      ListedExactly(key);
    }
    if v.Ref? {
      if h[v.r].ArrayNode? {
        ItemsAreRedacted(h, h[v.r].items, seen, rank, rank(v.r));
      } else if v.r !in seen {
        Shrinks(h.Keys, seen, v.r);
        EntriesAreRedacted(h, h[v.r].entries, seen + {v.r}, rank);
      }
    }
  }

  lemma {:induction false} ItemsAreRedacted(h: Heap, items: seq<Value>, seen: set<nat>, rank: nat -> nat, top: nat)
    requires Graph(h, rank) && ItemsInHeap(h, items) && ItemsBelow(h, items, rank, top)
    ensures RedactedItems(RedactItems(h, items, seen, rank, top).0, FunctionsOf(h))
    decreases |h.Keys - seen|, 0, 2 * top, 2, |items|
  {
    if items != [] {
      var middle, after := ItemsStep(h, items, seen, rank, top);
      CopyIsRedacted(h, items[0], seen, rank);
      ItemsAreRedacted(h, items[1..], middle, rank, top);
      assert RedactItems(h, items, seen, rank, top).0[1..] == RedactItems(h, items[1..], middle, rank, top).0;
    }
  }

  lemma {:induction false} EntriesAreRedacted(h: Heap, entries: seq<(string, Value)>, seen: set<nat>, rank: nat -> nat)
    requires Graph(h, rank) && EntriesInHeap(h, entries)
    ensures RedactedFields(RedactEntries(h, entries, seen, rank).0, FunctionsOf(h))
    decreases |h.Keys - seen|, 1, |entries|, 0, 0
  {
    if entries != [] {
      var middle, after := EntriesStep(h, entries, seen, rank);
      if Copies(h, entries[0]) {
        CopyIsRedacted(h, entries[0].1, seen, rank);
      }
      EntriesAreRedacted(h, entries[1..], middle, rank);
    }
  }

  lemma {:induction false} RedactedIsFixed(t: Tree, functions: set<nat>)
    requires Redacted(t, functions)
    ensures RedactTree(t) == t
  {
    match t
    case Leaf(_) =>
    case Branch(fields) => RedactedFieldsFixed(fields, functions);
    case Items(items) => RedactedItemsFixed(items, functions);
  }

  lemma {:induction false} RedactedFieldsFixed(fields: Fields, functions: set<nat>)
    requires RedactedFields(fields, functions)
    ensures RedactFields(fields) == fields
  {
    match fields
    case NoFields =>
    case Field(key, value, rest) =>
      if !Listed(key) && !value.RawFunction? {
        RedactedIsFixed(value, functions);
      }
      RedactedFieldsFixed(rest, functions);
  }

  lemma {:induction false} RedactedItemsFixed(items: seq<Tree>, functions: set<nat>)
    requires RedactedItems(items, functions)
    ensures RedactTrees(items) == items
  {
    if items != [] {
      RedactedIsFixed(items[0], functions);
      RedactedItemsFixed(items[1..], functions);
    }
  }

  // ----- Trees laid out in a heap

  /** The number of heap cells a tree takes. */
  function Size(t: Tree): nat {
    match t
    case Leaf(_) => 0
    case RawFunction(_) => 0
    case Branch(fields) => 1 + FieldsSize(fields)
    case Items(items) => 1 + ItemsSize(items)
  }

  function FieldsSize(fields: Fields): nat {
    match fields
    case NoFields => 0
    case Field(_, value, rest) => Size(value) + FieldsSize(rest)
  }

  function ItemsSize(items: seq<Tree>): nat {
    if items == [] then 0 else Size(items[0]) + ItemsSize(items[1..])
  }

  /** The value that refers to a tree whose first cell is `lo`. */
  function At(t: Tree, lo: nat): Value {
    match t
    case Leaf(p) => Prim(p)
    case RawFunction(r) => Ref(r)
    case _ => Ref(lo)
  }

  function EntriesAt(fields: Fields, lo: nat): seq<(string, Value)> {
    match fields
    case NoFields => []
    case Field(key, value, rest) => [(key, At(value, lo))] + EntriesAt(rest, lo + Size(value))
  }

  function ItemsAt(items: seq<Tree>, lo: nat): seq<Value> {
    if items == [] then [] else [At(items[0], lo)] + ItemsAt(items[1..], lo + Size(items[0]))
  }

  /** The heap holds the tree, unshared, in the cells from `lo` on. */
  ghost predicate Shows(h: Heap, t: Tree, lo: nat) {
    match t
    case Leaf(_) => true
    case RawFunction(r) => r in h && h[r].FunctionNode?
    case Branch(fields) => lo in h && h[lo] == ObjectNode(EntriesAt(fields, lo + 1)) && ShowsFields(h, fields, lo + 1)
    case Items(items) => lo in h && h[lo] == ArrayNode(ItemsAt(items, lo + 1)) && ShowsItems(h, items, lo + 1)
  }

  ghost predicate ShowsFields(h: Heap, fields: Fields, lo: nat) {
    match fields
    case NoFields => true
    case Field(_, value, rest) => Shows(h, value, lo) && ShowsFields(h, rest, lo + Size(value))
  }

  ghost predicate ShowsItems(h: Heap, items: seq<Tree>, lo: nat) {
    items == [] || (Shows(h, items[0], lo) && ShowsItems(h, items[1..], lo + Size(items[0])))
  }

  /** `seen` gained nothing outside the cells from `lo` to `hi`. */
  predicate Within(after: set<nat>, seen: set<nat>, lo: nat, hi: nat) {
    forall r :: r in after ==> r in seen || lo <= r < hi
  }

  predicate Unseen(seen: set<nat>, lo: nat, hi: nat) {
    forall r :: r in seen ==> !(lo <= r < hi)
  }

  /** On a laid-out copy the graph traversal is the simple recursion on the tree. */
  lemma {:induction false} RedactOnTree(h: Heap, t: Tree, lo: nat, seen: set<nat>, rank: nat -> nat)
    requires Graph(h, rank) && Shows(h, t, lo) && Redacted(t, FunctionsOf(h)) && Unseen(seen, lo, lo + Size(t))
    ensures InHeap(h, At(t, lo))
    ensures var (copy, after) := Redact(h, At(t, lo), seen, rank);
            copy == RedactTree(t) && Within(after, seen, lo, lo + Size(t))
  {
    match t
    case Leaf(_) =>
    case Branch(fields) => RedactOnFields(h, fields, lo + 1, seen + {lo}, rank);
    case Items(items) => RedactOnItems(h, items, lo + 1, seen, rank, rank(lo));
  }

  lemma {:induction false} RedactOnFields(h: Heap, fields: Fields, lo: nat, seen: set<nat>, rank: nat -> nat)
    requires Graph(h, rank) && ShowsFields(h, fields, lo) && RedactedFields(fields, FunctionsOf(h)) && Unseen(seen, lo, lo + FieldsSize(fields))
    ensures EntriesInHeap(h, EntriesAt(fields, lo))
    ensures var (copy, after) := RedactEntries(h, EntriesAt(fields, lo), seen, rank);
            copy == RedactFields(fields) && Within(after, seen, lo, lo + FieldsSize(fields))
  {
    FieldsShown(h, fields, lo);
    match fields
    case NoFields =>
    case Field(key, value, rest) =>
      var entries := EntriesAt(fields, lo);
      assert entries[0] == (key, At(value, lo)) && entries[1..] == EntriesAt(rest, lo + Size(value));
      var middle, after := EntriesStep(h, entries, seen, rank);
      ValueShown(h, value, lo);
      if Copies(h, entries[0]) {
        RedactOnTree(h, value, lo, seen, rank);
      }
      RedactOnFields(h, rest, lo + Size(value), middle, rank);
  }

  lemma ValueShown(h: Heap, value: Tree, lo: nat)
    requires Shows(h, value, lo)
    ensures InHeap(h, At(value, lo))
    ensures At(value, lo).Ref? && h[At(value, lo).r].FunctionNode? <==> value.RawFunction?
  {
  }

  lemma {:induction false} FieldsShown(h: Heap, fields: Fields, lo: nat)
    requires ShowsFields(h, fields, lo)
    ensures EntriesInHeap(h, EntriesAt(fields, lo))
  {
    match fields
    case NoFields =>
    case Field(key, value, rest) =>
      ValueShown(h, value, lo);
      FieldsShown(h, rest, lo + Size(value));
  }

  lemma {:induction false} RedactOnItems(h: Heap, items: seq<Tree>, lo: nat, seen: set<nat>, rank: nat -> nat, top: nat)
    requires Graph(h, rank) && ShowsItems(h, items, lo) && RedactedItems(items, FunctionsOf(h)) && Unseen(seen, lo, lo + ItemsSize(items))
    requires ItemsInHeap(h, ItemsAt(items, lo)) && ItemsBelow(h, ItemsAt(items, lo), rank, top)
    ensures var (copy, after) := RedactItems(h, ItemsAt(items, lo), seen, rank, top);
            copy == RedactTrees(items) && Within(after, seen, lo, lo + ItemsSize(items))
  {
    if items != [] {
      var values := ItemsAt(items, lo);
      assert values[0] == At(items[0], lo) && values[1..] == ItemsAt(items[1..], lo + Size(items[0]));
      RedactOnTree(h, items[0], lo, seen, rank);
      var middle, after := ItemsStep(h, values, seen, rank, top);
      RedactOnItems(h, items[1..], lo + Size(items[0]), middle, rank, top);
    }
  }

  // ----- The copy as fresh objects beside the original graph

  function Layout(t: Tree, lo: nat): Heap {
    match t
    case Leaf(_) => map[]
    case RawFunction(_) => map[]
    case Branch(fields) => map[lo := ObjectNode(EntriesAt(fields, lo + 1))] + LayoutFields(fields, lo + 1)
    case Items(items) => map[lo := ArrayNode(ItemsAt(items, lo + 1))] + LayoutItems(items, lo + 1)
  }

  function LayoutFields(fields: Fields, lo: nat): Heap {
    match fields
    case NoFields => map[]
    case Field(_, value, rest) => Layout(value, lo) + LayoutFields(rest, lo + Size(value))
  }

  function LayoutItems(items: seq<Tree>, lo: nat): Heap {
    if items == [] then map[] else Layout(items[0], lo) + LayoutItems(items[1..], lo + Size(items[0]))
  }

  predicate KeysFrom(h: Heap, lo: nat, hi: nat) {
    forall r :: r in h ==> lo <= r < hi
  }

  predicate Holds(h: Heap, part: Heap) {
    forall r :: r in part ==> r in h && h[r] == part[r]
  }

  lemma {:induction false} LayoutKeys(t: Tree, lo: nat)
    ensures KeysFrom(Layout(t, lo), lo, lo + Size(t))
  {
    match t
    case Leaf(_) =>
    case RawFunction(_) =>
    case Branch(fields) => LayoutFieldsKeys(fields, lo + 1);
    case Items(items) => LayoutItemsKeys(items, lo + 1);
  }

  lemma {:induction false} LayoutFieldsKeys(fields: Fields, lo: nat)
    ensures KeysFrom(LayoutFields(fields, lo), lo, lo + FieldsSize(fields))
  {
    match fields
    case NoFields =>
    case Field(_, value, rest) =>
      LayoutKeys(value, lo);
      LayoutFieldsKeys(rest, lo + Size(value));
  }

  lemma {:induction false} LayoutItemsKeys(items: seq<Tree>, lo: nat)
    ensures KeysFrom(LayoutItems(items, lo), lo, lo + ItemsSize(items))
  {
    if items != [] {
      LayoutKeys(items[0], lo);
      LayoutItemsKeys(items[1..], lo + Size(items[0]));
    }
  }

  lemma FieldsHeld(h: Heap, value: Tree, rest: Fields, lo: nat)
    requires Holds(h, Layout(value, lo) + LayoutFields(rest, lo + Size(value)))
    ensures Holds(h, Layout(value, lo)) && Holds(h, LayoutFields(rest, lo + Size(value)))
  {
    LayoutKeys(value, lo);
    LayoutFieldsKeys(rest, lo + Size(value));
  }

  lemma ItemsHeld(h: Heap, item: Tree, rest: seq<Tree>, lo: nat)
    requires Holds(h, Layout(item, lo) + LayoutItems(rest, lo + Size(item)))
    ensures Holds(h, Layout(item, lo)) && Holds(h, LayoutItems(rest, lo + Size(item)))
  {
    LayoutKeys(item, lo);
    LayoutItemsKeys(rest, lo + Size(item));
  }

  ghost predicate CellsOk(h: Heap, part: Heap, rank: nat -> nat) {
    forall r :: r in part ==> r in h && CellOk(h, r, rank)
  }

  lemma CellsOkUnion(h: Heap, a: Heap, b: Heap, rank: nat -> nat)
    requires CellsOk(h, a, rank) && CellsOk(h, b, rank)
    ensures CellsOk(h, a + b, rank)
  {
  }

  /** Later cells of the region rank lower. */
  ghost predicate Descending(rank: nat -> nat, lo: nat, hi: nat) {
    forall r, q {:trigger rank(r), rank(q)} :: lo <= r < q < hi ==> rank(q) < rank(r)
  }

  lemma {:induction false} LaidOut(h: Heap, t: Tree, lo: nat, hi: nat, functions: set<nat>, rank: nat -> nat)
    requires Holds(h, Layout(t, lo)) && Redacted(t, functions) && functions <= FunctionsOf(h)
    requires lo + Size(t) <= hi && Descending(rank, lo, hi)
    ensures Shows(h, t, lo) && CellsOk(h, Layout(t, lo), rank)
    decreases t, 0
  {
    LayoutKeys(t, lo);
    match t
    case Leaf(_) =>
    case Branch(fields) =>
      LayoutFieldsKeys(fields, lo + 1);
      LaidOutFields(h, fields, lo + 1, hi, functions, rank);
      FieldsShown(h, fields, lo + 1);
    case Items(items) =>
      LayoutItemsKeys(items, lo + 1);
      LaidOutItems(h, items, lo + 1, hi, functions, rank);
      ItemsShown(h, items, lo, lo + 1, hi, rank);
  }

  lemma {:induction false} LaidOutFields(h: Heap, fields: Fields, lo: nat, hi: nat, functions: set<nat>, rank: nat -> nat)
    requires Holds(h, LayoutFields(fields, lo)) && RedactedFields(fields, functions) && functions <= FunctionsOf(h)
    requires lo + FieldsSize(fields) <= hi && Descending(rank, lo, hi)
    ensures ShowsFields(h, fields, lo) && CellsOk(h, LayoutFields(fields, lo), rank)
    decreases fields, 0
  {
    match fields
    case NoFields =>
    case Field(key, value, rest) =>
      FieldsHeld(h, value, rest, lo);
      LaidOutValue(h, key, value, lo, hi, functions, rank);
      LaidOutFields(h, rest, lo + Size(value), hi, functions, rank);
      LaidOutField(h, key, value, rest, lo, rank);
  }

  lemma LaidOutField(h: Heap, key: string, value: Tree, rest: Fields, lo: nat, rank: nat -> nat)
    requires Shows(h, value, lo) && ShowsFields(h, rest, lo + Size(value))
    requires CellsOk(h, Layout(value, lo), rank) && CellsOk(h, LayoutFields(rest, lo + Size(value)), rank)
    ensures ShowsFields(h, Field(key, value, rest), lo) && CellsOk(h, LayoutFields(Field(key, value, rest), lo), rank)
  {
    CellsOkUnion(h, Layout(value, lo), LayoutFields(rest, lo + Size(value)), rank);
  }

  lemma {:induction false} LaidOutValue(h: Heap, key: string, value: Tree, lo: nat, hi: nat, functions: set<nat>, rank: nat -> nat)
    requires Holds(h, Layout(value, lo)) && RedactedProperty(key, value, functions) && functions <= FunctionsOf(h)
    requires lo + Size(value) <= hi && Descending(rank, lo, hi)
    ensures Shows(h, value, lo) && CellsOk(h, Layout(value, lo), rank)
    decreases value, 1
  {
    if !Listed(key) && !value.RawFunction? {
      LaidOut(h, value, lo, hi, functions, rank);
    }
  }

  lemma {:induction false} LaidOutItems(h: Heap, items: seq<Tree>, lo: nat, hi: nat, functions: set<nat>, rank: nat -> nat)
    requires Holds(h, LayoutItems(items, lo)) && RedactedItems(items, functions) && functions <= FunctionsOf(h)
    requires lo + ItemsSize(items) <= hi && Descending(rank, lo, hi)
    ensures ShowsItems(h, items, lo) && CellsOk(h, LayoutItems(items, lo), rank)
    ensures forall i :: 0 <= i < |items| ==> !items[i].RawFunction?
    decreases items, 0
  {
    hide Holds, FunctionsOf, Shows, Layout;
    if items != [] {
      ItemsHeld(h, items[0], items[1..], lo);
      LaidOut(h, items[0], lo, hi, functions, rank);
      LaidOutItems(h, items[1..], lo + Size(items[0]), hi, functions, rank);
      CellsOkUnion(h, Layout(items[0], lo), LayoutItems(items[1..], lo + Size(items[0])), rank);
    }
  }

  lemma {:induction false} ItemsShown(h: Heap, items: seq<Tree>, cell: nat, lo: nat, hi: nat, rank: nat -> nat)
    requires ShowsItems(h, items, lo) && cell < lo && lo + ItemsSize(items) <= hi && Descending(rank, cell, hi)
    requires forall i :: 0 <= i < |items| ==> !items[i].RawFunction?
    ensures ItemsInHeap(h, ItemsAt(items, lo)) && ItemsBelow(h, ItemsAt(items, lo), rank, rank(cell))
  {
    if items != [] {
      ValueShown(h, items[0], lo);
      ItemsShown(h, items[1..], cell, lo + Size(items[0]), hi, rank);
      var values := ItemsAt(items, lo);
      forall i | 0 <= i < |values|
        ensures InHeap(h, values[i]) && (IsArray(h, values[i]) ==> rank(values[i].r) < rank(cell))
      {
        if i > 0 {
          assert values[i] == ItemsAt(items[1..], lo + Size(items[0]))[i - 1];
        }
      }
    }
  }

  /** The rank of the original cells, and a descending one for the copy. */
  function RankBeside(rank: nat -> nat, lo: nat, hi: nat): nat -> nat {
    (r: nat) => if r < lo then rank(r) else if r < hi then hi - r else 0
  }

  function Beside(h: Heap, t: Tree, lo: nat): Heap {
    h + Layout(t, lo)
  }

  lemma BesideIsGraph(h: Heap, t: Tree, lo: nat, rank: nat -> nat)
    requires Graph(h, rank) && Redacted(t, FunctionsOf(h)) && forall r :: r in h ==> r < lo
    ensures Graph(Beside(h, t, lo), RankBeside(rank, lo, lo + Size(t)))
    ensures Shows(Beside(h, t, lo), t, lo) && FunctionsOf(h) <= FunctionsOf(Beside(h, t, lo))
  {
    var hi := lo + Size(t);
    var beside := Beside(h, t, lo);
    var beyond := RankBeside(rank, lo, hi);
    LayoutKeys(t, lo);
    LaidOut(beside, t, lo, hi, FunctionsOf(h), beyond);
    forall r | r in h
      ensures CellOk(beside, r, beyond)
    {
      CellBeside(h, beside, r, rank, beyond, lo);
    }
    CellsOkUnion(beside, h, Layout(t, lo), beyond);
  }

  lemma CellBeside(h: Heap, beside: Heap, r: nat, rank: nat -> nat, beyond: nat -> nat, lo: nat)
    requires Graph(h, rank) && r in h && Holds(beside, h)
    requires forall q :: q in h ==> q < lo
    requires forall q: nat :: q < lo ==> beyond(q) == rank(q)
    ensures r in beside && CellOk(beside, r, beyond)
  {
  }

  /** A redacted value laid out beside any graph is a fixpoint of the graph traversal. */
  lemma RedactedStaysInHeap(h: Heap, rank: nat -> nat, t: Tree, lo: nat)
    requires Graph(h, rank) && Redacted(t, FunctionsOf(h)) && forall r :: r in h ==> r < lo
    ensures Graph(Beside(h, t, lo), RankBeside(rank, lo, lo + Size(t))) && InHeap(Beside(h, t, lo), At(t, lo))
    ensures Redact(Beside(h, t, lo), At(t, lo), {}, RankBeside(rank, lo, lo + Size(t))).0 == t
  {
    var beyond := RankBeside(rank, lo, lo + Size(t));
    var beside := Beside(h, t, lo);
    BesideIsGraph(h, t, lo, rank);
    RedactedGrows(t, FunctionsOf(h), FunctionsOf(beside));
    RedactedIsFixed(t, FunctionsOf(h));
    RedactOnTree(beside, t, lo, {}, beyond);
  }

  /** Redacting a redacted copy gives the same copy: every value, at every depth, on any graph. */
  lemma RedactingAgainChangesNothing(h: Heap, v: Value, rank: nat -> nat, t: Tree, lo: nat)
    requires Graph(h, rank) && InHeap(h, v) && t == Redact(h, v, {}, rank).0
    requires forall r :: r in h ==> r < lo
    ensures Graph(Beside(h, t, lo), RankBeside(rank, lo, lo + Size(t))) && InHeap(Beside(h, t, lo), At(t, lo))
    ensures Redact(Beside(h, t, lo), At(t, lo), {}, RankBeside(rank, lo, lo + Size(t))).0 == t
  {
    CopyIsRedacted(h, v, {}, rank);
    RedactedStaysInHeap(h, rank, t, lo);
  }

  lemma {:induction false} RedactedGrows(t: Tree, functions: set<nat>, more: set<nat>)
    requires Redacted(t, functions) && functions <= more
    ensures Redacted(t, more)
  {
    match t
    case Leaf(_) =>
    case Branch(fields) => RedactedFieldsGrow(fields, functions, more);
    case Items(items) => RedactedItemsGrow(items, functions, more);
  }

  lemma {:induction false} RedactedFieldsGrow(fields: Fields, functions: set<nat>, more: set<nat>)
    requires RedactedFields(fields, functions) && functions <= more
    ensures RedactedFields(fields, more)
  {
    match fields
    case NoFields =>
    case Field(key, value, rest) =>
      if !Listed(key) && !value.RawFunction? {
        RedactedGrows(value, functions, more);
      }
      RedactedFieldsGrow(rest, functions, more);
  }

  lemma {:induction false} RedactedItemsGrow(items: seq<Tree>, functions: set<nat>, more: set<nat>)
    requires RedactedItems(items, functions) && functions <= more
    ensures RedactedItems(items, more)
  {
    if items != [] {
      RedactedGrows(items[0], functions, more);
      RedactedItemsGrow(items[1..], functions, more);
    }
  }

  // ----- The function as it runs

  class WeakSet {
    var members: set<nat>

    constructor ()
      ensures members == {}
    {
      members := {};
    }

    predicate Has(r: nat)
      reads this
    {
      r in members
    }

    method Add(r: nat)
      modifies this
      ensures members == old(members) + {r}
    {
      members := members + {r};
    }
  }

  /** `redact(value, seen)`, with its two loops and the shared `seen` set. */
  method RedactInPlace(h: Heap, v: Value, seen: WeakSet, ghost rank: nat -> nat) returns (t: Tree)
    requires Graph(h, rank) && InHeap(h, v)
    modifies seen
    ensures (t, seen.members) == Redact(h, v, old(seen.members), rank)
    decreases |h.Keys - seen.members|, 0, ArrayRank(h, v, rank), 1
  {
    if v.Prim? {
      return Leaf(v.p);
    }
    if h[v.r].ArrayNode? {
      var items := MapItems(h, h[v.r].items, seen, rank, rank(v.r));
      return Items(items);
    }
    if seen.Has(v.r) {
      return CIRCULAR;
    }
    Shrinks(h.Keys, seen.members, v.r);
    seen.Add(v.r);
    var fields := FillFields(h, h[v.r].entries, seen, rank);
    return Branch(fields);
  }

  /** The loop has filled `ts` and still has `rest` to go, with `seen` grown to `now`. */
  ghost predicate Remains(h: Heap, whole: (seq<Tree>, set<nat>), rest: seq<Value>, ts: seq<Tree>, now: set<nat>, rank: nat -> nat, top: nat)
    requires Graph(h, rank)
  {
    && ItemsInHeap(h, rest) && ItemsBelow(h, rest, rank, top)
    && whole.0 == ts + RedactItems(h, rest, now, rank, top).0
    && whole.1 == RedactItems(h, rest, now, rank, top).1
  }

  lemma RemainsStep(h: Heap, whole: (seq<Tree>, set<nat>), rest: seq<Value>, ts: seq<Tree>, now: set<nat>, rank: nat -> nat, top: nat)
    requires Graph(h, rank) && rest != [] && Remains(h, whole, rest, ts, now, rank, top)
    ensures InHeap(h, rest[0]) && ArrayRank(h, rest[0], rank) <= 2 * top
    ensures var (t, middle) := Redact(h, rest[0], now, rank);
            |h.Keys - middle| <= |h.Keys - now| && Remains(h, whole, rest[1..], ts + [t], middle, rank, top)
  {
    var middle, after := ItemsStep(h, rest, now, rank, top);
    Regroup(ts, [Redact(h, rest[0], now, rank).0], RedactItems(h, rest[1..], middle, rank, top).0);
  }

  lemma RemainsNothing(h: Heap, whole: (seq<Tree>, set<nat>), ts: seq<Tree>, now: set<nat>, rank: nat -> nat, top: nat)
    requires Graph(h, rank) && Remains(h, whole, [], ts, now, rank, top)
    ensures whole == (ts, now)
  {
    var none: seq<Value> := [];
    assert RedactItems(h, none, now, rank, top) == ([], now);
    assert ts + [] == ts;
  }

  /** `value.map((item) => redact(item, seen))`. */
  method MapItems(h: Heap, items: seq<Value>, seen: WeakSet, ghost rank: nat -> nat, ghost top: nat) returns (ts: seq<Tree>)
    requires Graph(h, rank) && ItemsInHeap(h, items) && ItemsBelow(h, items, rank, top)
    modifies seen
    ensures (ts, seen.members) == RedactItems(h, items, old(seen.members), rank, top)
    decreases |h.Keys - seen.members|, 0, 2 * top, 2
  {
    ts := [];
    ghost var start := seen.members;
    ghost var whole := RedactItems(h, items, start, rank, top);
    assert items[0..] == items;
    for i := 0 to |items|
      invariant |h.Keys - seen.members| <= |h.Keys - start|
      invariant Remains(h, whole, items[i..], ts, seen.members, rank, top)
    {
      RemainsStep(h, whole, items[i..], ts, seen.members, rank, top);
      assert items[i..][0] == items[i] && items[i..][1..] == items[i + 1..];
      var t := RedactInPlace(h, items[i], seen, rank);
      ts := ts + [t];
    }
    assert items[|items|..] == [];
    RemainsNothing(h, whole, ts, seen.members, rank, top);
  }

  /** The property loop, for the entries from the first on. */
  method FillFields(h: Heap, entries: seq<(string, Value)>, seen: WeakSet, ghost rank: nat -> nat) returns (result: Fields)
    requires Graph(h, rank) && EntriesInHeap(h, entries)
    modifies seen
    ensures (result, seen.members) == RedactEntries(h, entries, old(seen.members), rank)
    decreases |h.Keys - seen.members|, 1, |entries|, 0
  {
    if |entries| == 0 {
      return NoFields;
    }
    var (key, v) := entries[0];
    var middle, after := EntriesStep(h, entries, seen.members, rank);
    var value;
    if Listed(key) {
      value := PLACEHOLDER;
    } else if v.Ref? && h[v.r].FunctionNode? {
      value := RawFunction(v.r);
    } else {
      value := RedactInPlace(h, v, seen, rank);
    }
    var rest := FillFields(h, entries[1..], seen, rank);
    result := Field(key, value, rest);
  }
}
