/**
 Column order and visibility of apps/admin/src/components/DataTable.jsx.

 The component keeps the preferences it was mounted with and every change made to them, but
 shows them reconciled with the current columns. The handlers work on what is kept, not on what
 is shown; the two differ once the parent has added or removed columns.
 */
module ColumnPrefs {
  import opened Prelude

  datatype Prefs = Prefs(order: seq<string>, hidden: seq<string>)

  // ----- Filtering lists of ids

  function Among(ids: seq<string>, others: seq<string>): (r: seq<string>)
    ensures forall id :: id in r <==> id in ids && id in others
  {
    if ids == [] then [] else (if ids[0] in others then [ids[0]] else []) + Among(ids[1..], others)
  }

  function Without(ids: seq<string>, others: seq<string>): (r: seq<string>)
    ensures forall id :: id in r <==> id in ids && id !in others
  {
    if ids == [] then [] else (if ids[0] in others then [] else [ids[0]]) + Without(ids[1..], others)
  }

  lemma {:induction false} WithoutDistinct(ids: seq<string>, others: seq<string>)
    requires Distinct(ids)
    ensures Distinct(Without(ids, others))
  {
    if ids != [] {
      assert ids == [ids[0]] + ids[1..];
      DistinctCons(ids[0], ids[1..]);
      WithoutDistinct(ids[1..], others);
      DistinctCons(ids[0], Without(ids[1..], others));
    }
  }

  lemma DistinctAppend(a: seq<string>, b: seq<string>)
    requires Distinct(b) && forall id :: id in b ==> id !in a
    ensures Distinct(a + b) <==> Distinct(a)
  {
    if Distinct(a + b) {
      assert forall i :: 0 <= i < |a| ==> a[i] == (a + b)[i];
    }
    if Distinct(a) {
      forall i, j | 0 <= i < j < |a + b|
        ensures (a + b)[i] != (a + b)[j]
      {
        assert j >= |a| ==> (a + b)[j] in b;
      }
    }
  }

  lemma {:induction false} AmongAll(ids: seq<string>, others: seq<string>)
    requires forall id :: id in ids ==> id in others
    ensures Among(ids, others) == ids
  {
    if ids != [] {
      AmongAll(ids[1..], others);
    }
  }

  lemma {:induction false} WithoutAll(ids: seq<string>, others: seq<string>)
    requires forall id :: id in ids ==> id in others
    ensures Without(ids, others) == []
  {
    if ids != [] {
      WithoutAll(ids[1..], others);
    }
  }

  lemma {:induction false} WithoutLast(ids: seq<string>, id: string)
    requires id !in ids
    ensures Without(ids + [id], [id]) == ids
  {
    if ids == [] {
      assert ids + [id] == [id];
    } else {
      WithoutLast(ids[1..], id);
      assert (ids + [id])[1..] == ids[1..] + [id];
    }
  }

  // ----- Reconciling with the current columns

  /** Unknown ids are dropped and new columns appended. */
  function Reconcile(current: Prefs, known: seq<string>): Prefs {
    Prefs(Among(current.order, known) + Without(known, current.order), Among(current.hidden, known))
  }

  /** The ids of the columns on screen, in order. */
  function Displayed(stored: Prefs, known: seq<string>): seq<string> {
    var shown := Reconcile(stored, known);
    Without(shown.order, shown.hidden)
  }

  /** The order shown names each current column, and names each once exactly when the kept order does. */
  lemma ReconcilePermutes(stored: Prefs, known: seq<string>)
    requires Distinct(known)
    ensures var order := Reconcile(stored, known).order;
            && (forall id :: id in order <==> id in known)
            && (Distinct(order) <==> Distinct(Among(stored.order, known)))
            && Among(stored.order, known) <= order
  {
    WithoutDistinct(known, stored.order);
    DistinctAppend(Among(stored.order, known), Without(known, stored.order));
  }

  /** What was persisted is read back unchanged. */
  lemma ReconcileTwice(stored: Prefs, known: seq<string>)
    ensures Reconcile(Reconcile(stored, known), known) == Reconcile(stored, known)
  {
    var once := Reconcile(stored, known);
    AmongAll(once.order, known);
    AmongAll(once.hidden, known);
    WithoutAll(known, once.order);
  }

  /** The table has no column on screen exactly when every current column is marked hidden. */
  lemma CollapsedExactly(stored: Prefs, known: seq<string>)
    ensures Displayed(stored, known) == [] <==> forall id :: id in known ==> id in stored.hidden
    ensures forall id :: id in Displayed(stored, known) <==> id in known && id !in stored.hidden
  {
    var shown := Displayed(stored, known);
    if shown == [] {
      forall id | id in known
        ensures id in stored.hidden
      {
        assert id !in shown;
      }
    } else {
      assert shown[0] in shown;
    }
  }

  // ----- The handlers

  function Toggle(p: Prefs, id: string): Prefs {
    if id in p.hidden then p.(hidden := Without(p.hidden, [id]))
    else if |Without(p.order, p.hidden)| <= 1 then p
    else p.(hidden := p.hidden + [id])
  }

  function Find(ids: seq<string>, id: string): (index: int)
    ensures -1 <= index < |ids|
    ensures index == -1 <==> id !in ids
    ensures index >= 0 ==> ids[index] == id && id !in ids[..index]
  {
    if ids == [] then -1
    else if ids[0] == id then 0
    else
      var rest := Find(ids[1..], id);
      assert rest >= 0 ==> ids[..rest + 1] == [ids[0]] + ids[1..][..rest];
      if rest == -1 then -1 else rest + 1
  }

  function Swap(ids: seq<string>, i: nat, j: nat): seq<string>
    requires i < |ids| && j < |ids|
  {
    ids[i := ids[j]][j := ids[i]]
  }

  lemma SwapPermutes(ids: seq<string>, i: nat, j: nat)
    requires i < |ids| && j < |ids|
    ensures Swap(Swap(ids, i, j), j, i) == ids
    ensures Distinct(ids) ==> Distinct(Swap(ids, i, j))
    ensures forall id :: id in Swap(ids, i, j) <==> id in ids
  {
    var r := Swap(ids, i, j);
    forall id
      ensures id in r <==> id in ids
    {
      assert ids[i] == r[j] && ids[j] == r[i];
      if id in r {
        var k :| 0 <= k < |r| && r[k] == id;
        assert k != i && k != j ==> ids[k] == id;
      }
      if id in ids {
        var k :| 0 <= k < |ids| && ids[k] == id;
        assert k != i && k != j ==> r[k] == id;
      }
    }
  }

  function Move(p: Prefs, id: string, offset: int): Prefs {
    var index := Find(p.order, id);
    var target := index + offset;
    if index < 0 || target < 0 || target >= |p.order| then p
    else p.(order := Swap(p.order, index, target))
  }

  function Reset(known: seq<string>): Prefs {
    Prefs(known, [])
  }

  /**
   Hiding a column on screen works exactly when the kept preferences, with the ids of removed
   columns and without those of added ones, count more than one visible column.
   */
  lemma HidesExactly(stored: Prefs, known: seq<string>, id: string)
    requires id in Displayed(stored, known)
    ensures id !in Displayed(Toggle(stored, id), known) <==> |Without(stored.order, stored.hidden)| > 1
    ensures forall other :: other != id ==> (other in Displayed(Toggle(stored, id), known) <==> other in Displayed(stored, known))
  {
    CollapsedExactly(stored, known);
    CollapsedExactly(Toggle(stored, id), known);
  }

  /** So the last column on screen goes exactly when the kept order still has another visible id. */
  lemma CollapsesExactly(stored: Prefs, known: seq<string>, id: string)
    requires Displayed(stored, known) != []
    ensures Displayed(Toggle(stored, id), known) == [] <==>
            (forall shown :: shown in Displayed(stored, known) <==> shown == id) && |Without(stored.order, stored.hidden)| > 1
  {
    CollapsedExactly(stored, known);
    CollapsedExactly(Toggle(stored, id), known);
    var first := Displayed(stored, known)[0];
    assert first in Displayed(stored, known);
    if Displayed(Toggle(stored, id), known) == [] {
      assert first in Toggle(stored, id).hidden;
    } else {
      assert Displayed(Toggle(stored, id), known)[0] in Displayed(Toggle(stored, id), known);
    }
  }

  lemma ToggleTwice(p: Prefs, id: string)
    requires id !in p.hidden && |Without(p.order, p.hidden)| > 1
    ensures Toggle(Toggle(p, id), id) == p
  {
    WithoutLast(p.hidden, id);
  }

  /** A hidden column is shown again in its place, and no other column comes or goes. */
  lemma ToggleShows(stored: Prefs, known: seq<string>, id: string)
    requires id in known && id in stored.hidden
    ensures id in Displayed(Toggle(stored, id), known)
    ensures Reconcile(Toggle(stored, id), known).order == Reconcile(stored, known).order
    ensures forall other :: other != id ==> (other in Displayed(Toggle(stored, id), known) <==> other in Displayed(stored, known))
  {
    CollapsedExactly(stored, known);
    CollapsedExactly(Toggle(stored, id), known);
  }

  /** A column moved within the list and moved back leaves the order as it was. */
  lemma MoveBack(p: Prefs, id: string, offset: int)
    requires Distinct(p.order) && id in p.order && 0 <= Find(p.order, id) + offset < |p.order|
    ensures Move(Move(p, id, offset), id, -offset) == p
    ensures Distinct(Move(p, id, offset).order)
    ensures forall other :: other in Move(p, id, offset).order <==> other in p.order
  {
    var index := Find(p.order, id);
    hide Find;
    SwapPermutes(p.order, index, index + offset);
    assert Swap(p.order, index, index + offset)[index + offset] == id;
    hide Swap, Distinct;
    FoundAt(Swap(p.order, index, index + offset), id, index + offset);
  }

  /** A move changes places with the neighbour at the offset; past either end, or for an unknown id, it does nothing. */
  lemma MovesExactly(p: Prefs, id: string, offset: int, index: nat)
    requires Distinct(p.order) && index < |p.order|
    ensures p.order[index] == id && 0 <= index + offset < |p.order| ==>
              var after := Move(p, id, offset);
              && after.hidden == p.hidden && |after.order| == |p.order|
              && after.order[index + offset] == id && after.order[index] == p.order[index + offset]
              && forall k :: 0 <= k < |p.order| && k != index && k != index + offset ==> after.order[k] == p.order[k]
    ensures id !in p.order || (p.order[index] == id && !(0 <= index + offset < |p.order|)) ==> Move(p, id, offset) == p
  {
    if p.order[index] == id {
      FoundAt(p.order, id, index);
    }
  }

  lemma FoundAt(ids: seq<string>, id: string, index: nat)
    requires Distinct(ids) && index < |ids| && ids[index] == id
    ensures Find(ids, id) == index
  {
    assert id in ids && ids[Find(ids, id)] == ids[index];
  }

  // ----- Runs

  datatype Event = ToggleColumn(id: string) | MoveColumn(id: string, offset: int) | ResetColumns | Columns(known: seq<string>) | Reload

  datatype Table = Table(stored: Prefs, known: seq<string>)

  function Step(t: Table, e: Event): Table {
    match e
    case ToggleColumn(id) => t.(stored := Toggle(t.stored, id))
    case MoveColumn(id, offset) => t.(stored := Move(t.stored, id, offset))
    case ResetColumns => t.(stored := Reset(t.known))
    case Columns(known) => t.(known := known)
    case Reload => t.(stored := Reconcile(Reconcile(t.stored, t.known), t.known))
  }

  function Run(t: Table, es: seq<Event>): Table
    decreases |es|
  {
    if es == [] then t else Run(Step(t, es[0]), es[1..])
  }

  /** The kept order names exactly the current columns, each once. */
  ghost predicate InStep(t: Table) {
    Distinct(t.known) && Distinct(t.stored.order) && forall id :: id in t.stored.order <==> id in t.known
  }

  /** Resetting shows all current columns in their own order; a reload shows what was shown. */
  lemma ResetShowsAll(t: Table)
    ensures var after := Step(t, ResetColumns); after.known == t.known && Displayed(after.stored, t.known) == t.known
    ensures var after := Step(t, Reload); after.known == t.known && Displayed(after.stored, t.known) == Displayed(t.stored, t.known)
    ensures forall id :: Step(t, ToggleColumn(id)).stored == Toggle(t.stored, id)
    ensures forall id, offset :: Step(t, MoveColumn(id, offset)).stored == Move(t.stored, id, offset)
    ensures forall known :: Step(t, Columns(known)) == Table(t.stored, known)
  {
    AmongAll(t.known, t.known);
    WithoutAll(t.known, t.known);
    WithoutNone(t.known);
    assert Among([], t.known) == [] && t.known + [] == t.known;
    ReconcileTwice(t.stored, t.known);
  }

  lemma {:induction false} WithoutNone(ids: seq<string>)
    ensures Without(ids, []) == ids
  {
    if ids != [] {
      WithoutNone(ids[1..]);
    }
  }

  /** As long as the columns stay what they are, no run of clicks and reloads empties the table. */
  lemma {:induction false} NeverCollapses(t: Table, es: seq<Event>)
    requires InStep(t) && Displayed(t.stored, t.known) != [] && forall e :: e in es ==> !e.Columns?
    ensures InStep(Run(t, es)) && Displayed(Run(t, es).stored, t.known) != []
    decreases |es|
  {
    if es != [] {
      StepKeeps(t, es[0]);
      NeverCollapses(Step(t, es[0]), es[1..]);
    }
  }

  lemma StepKeeps(t: Table, e: Event)
    requires InStep(t) && Displayed(t.stored, t.known) != [] && !e.Columns?
    ensures var after := Step(t, e); InStep(after) && after.known == t.known && Displayed(after.stored, t.known) != []
  {
    CollapsedExactly(t.stored, t.known);
    CollapsedExactly(Step(t, e).stored, t.known);
    hide Displayed, Among, Without, Distinct, Move, Swap;
    match e
    case ToggleColumn(id) => ToggleKeepsOne(t, id);
    case MoveColumn(id, offset) => MoveKeeps(t, id, offset);
    case ResetColumns => assert Displayed(t.stored, t.known)[0] in Displayed(t.stored, t.known);
    case Reload => ReloadKeeps(t);
  }

  lemma MoveKeeps(t: Table, id: string, offset: int)
    requires InStep(t)
    ensures InStep(Step(t, MoveColumn(id, offset))) && Step(t, MoveColumn(id, offset)).stored.hidden == t.stored.hidden
  {
    var index := Find(t.stored.order, id);
    if index >= 0 && 0 <= index + offset < |t.stored.order| {
      MoveBack(t.stored, id, offset);
    }
  }

  lemma ReloadKeeps(t: Table)
    requires InStep(t)
    ensures InStep(Step(t, Reload)) && Step(t, Reload).stored == t.stored.(hidden := Among(t.stored.hidden, t.known))
  {
    AmongAll(t.stored.order, t.known);
    WithoutAll(t.known, t.stored.order);
    ReconcileTwice(t.stored, t.known);
  }

  lemma ToggleKeepsOne(t: Table, id: string)
    requires InStep(t) && Displayed(t.stored, t.known) != []
    ensures Displayed(Toggle(t.stored, id), t.known) != []
  {
    CollapsesExactly(t.stored, t.known, id);
    CollapsedExactly(t.stored, t.known);
    var visible := Without(t.stored.order, t.stored.hidden);
    if |visible| > 1 {
      WithoutDistinct(t.stored.order, t.stored.hidden);
      assert visible[0] in visible && visible[1] in visible && visible[0] != visible[1];
      assert visible[0] in Displayed(t.stored, t.known) && visible[1] in Displayed(t.stored, t.known);
    }
  }

  /** A column is removed by the parent, and then the last one on screen can be hidden. */
  lemma CollapseAfterRemoval()
    ensures var t := Run(Table(Reset(["a", "b"]), ["a", "b"]), [Columns(["a"]), ToggleColumn("a")]);
            Displayed(t.stored, t.known) == []
  {
    var t0 := Table(Reset(["a", "b"]), ["a", "b"]);
    var t1 := Step(t0, Columns(["a"]));
    var t2 := Step(t1, ToggleColumn("a"));
    assert [Columns(["a"]), ToggleColumn("a")][1..] == [ToggleColumn("a")];
    assert Run(t2, [ToggleColumn("a")][1..]) == t2;
    assert Run(t1, [ToggleColumn("a")]) == t2;
    assert Without(["b"], []) == ["b"] by {
      assert ["b"][1..] == [];
    }
    assert ["a", "b"][1..] == ["b"];
    assert Without(["a", "b"], []) == ["a", "b"];
    CollapsedExactly(t2.stored, t2.known);
  }

  /** The parent adds a column, and hiding it is refused although two columns are on screen. */
  lemma RefusalAfterAddition()
    ensures var t := Run(Table(Reset(["a"]), ["a"]), [Columns(["a", "b"]), ToggleColumn("b")]);
            "a" in Displayed(t.stored, t.known) && "b" in Displayed(t.stored, t.known)
  {
    var t0 := Table(Reset(["a"]), ["a"]);
    var t1 := Step(t0, Columns(["a", "b"]));
    assert [Columns(["a", "b"]), ToggleColumn("b")][1..] == [ToggleColumn("b")] && [ToggleColumn("b")][1..] == [];
    assert Without(["a"], []) == ["a"] by {
      assert ["a"][1..] == [];
    }
    var t2 := Step(t1, ToggleColumn("b"));
    assert t2 == t1;
    assert Run(t1, [ToggleColumn("b")]) == Run(t2, []);
    CollapsedExactly(t2.stored, t2.known);
  }

  // ----- The component's state

  class ColumnControl {
    var stored: Prefs

    /** `persisted`: what the browser's storage holds for this table, if it parses. */
    constructor (persisted: Option<Prefs>, columns: seq<string>)
      ensures stored == match persisted case None => Reset(columns) case Some(p) => Reconcile(p, columns)
    {
      stored := if persisted.Some? then Reconcile(persisted.value, columns) else Prefs(columns, []);
    }

    method ResetColumns(columns: seq<string>)
      modifies this
      ensures stored == Reset(columns)
    {
      stored := Prefs(columns, []);
    }

    method ToggleColumn(id: string)
      modifies this
      ensures stored == Toggle(old(stored), id)
    {
      if id in stored.hidden {
        stored := stored.(hidden := Without(stored.hidden, [id]));
        return;
      }
      var visibleCount := |Without(stored.order, stored.hidden)|;
      if visibleCount > 1 {
        stored := stored.(hidden := stored.hidden + [id]);
      }
    }

    method MoveColumn(id: string, offset: int)
      modifies this
      ensures stored == Move(old(stored), id, offset)
    {
      var index := Find(stored.order, id);
      var target := index + offset;
      if index < 0 || target < 0 || target >= |stored.order| {
        return;
      }
      var order := stored.order;
      order := order[index := order[target]][target := order[index]];
      stored := stored.(order := order);
    }
  }
}
