/**
 Multi-key sorting of the admin data grid: `compareValues` in
 apps/admin/src/components/dataTableSort.js, `sortRows` and `handleSort` in
 apps/admin/src/components/DataTable.jsx.

 Cells are numbers, decimal strings (the value the text denotes) or one of the three
 markers that count as missing. Numbers are exact reals. What `Date.parse` and `localeCompare`
 say of two other cells is a parameter; it is only asked for a number that prints with an
 exponent beside a decimal string.
 */
module RowSort {
  import opened StableSort

  datatype Cell = Null | Undefined | EmptyText | Number(r: real) | DecimalText(r: real)

  predicate Missing(c: Cell) {
    c.Null? || c.Undefined? || c.EmptyText?
  }

  /** A table row; reading a key it does not have gives `undefined`. */
  type Row = map<string, Cell>

  function Get(row: Row, key: string): Cell {
    if key in row then row[key] else Undefined
  }

  datatype Direction = Ascending | Descending

  datatype SortKey = SortKey(key: string, direction: Direction)

  datatype Column = Column(id: string, sortable: bool)

  // ----- The comparators

  /** The end of `compareValues`, for cells that are not both decimal. */
  type Fallback = (Cell, Cell) -> real

  /** `String(c)` of a cell that is not missing is a decimal: numbers below 0.000001 or from 10^21 on print with an exponent. */
  predicate PrintsDecimal(c: Cell)
    requires !Missing(c)
  {
    c.DecimalText? || c.r == 0.0 || 0.000001 <= c.r < 1000000000000000000000.0 || 0.000001 <= -c.r < 1000000000000000000000.0
  }

  function CompareValues(other: Fallback, a: Cell, b: Cell): real {
    if a == b then 0.0
    else if Missing(a) then 1.0
    else if Missing(b) then -1.0
    else if (a.Number? && b.Number?) || (PrintsDecimal(a) && PrintsDecimal(b)) then a.r - b.r
    else other(a, b)
  }

  function CompareBy(other: Fallback, k: SortKey, a: Row, b: Row): real {
    (if k.direction == Descending then -1.0 else 1.0) * CompareValues(other, Get(a, k.key), Get(b, k.key))
  }

  /** The comparator `sortRows` passes to `sort`: the first key that tells the rows apart decides. */
  function CompareRows(other: Fallback, active: seq<SortKey>, a: Row, b: Row): real {
    if active == [] then 0.0
    else
      var result := CompareBy(other, active[0], a, b);
      if result != 0.0 then result else CompareRows(other, active[1..], a, b)
  }

  /** `a` need not come after `b`. */
  function AtMost(other: Fallback, active: seq<SortKey>): (Row, Row) -> bool {
    (a, b) => CompareRows(other, active, a, b) <= 0.0
  }

  function AtMostBy(other: Fallback, k: SortKey): (Row, Row) -> bool {
    (a, b) => CompareBy(other, k, a, b) <= 0.0
  }

  function ActiveKeys(columns: seq<Column>, sortList: seq<SortKey>): seq<SortKey> {
    if sortList == [] then []
    else
      (if exists c :: c in columns && c.sortable && c.id == sortList[0].key then [sortList[0]] else [])
      + ActiveKeys(columns, sortList[1..])
  }

  function SortRows(other: Fallback, data: seq<Row>, columns: seq<Column>, sortList: seq<SortKey>): seq<Row> {
    var active := ActiveKeys(columns, sortList);
    if active == [] then data else Sort(AtMost(other, active), data)
  }

  // ----- When the comparator is consistent

  /** At most one of the three missing markers occurs. */
  ghost predicate OneMarker(cells: set<Cell>) {
    forall a, b :: a in cells && b in cells && Missing(a) && Missing(b) ==> a == b
  }

  /** A number that prints with an exponent does not stand beside decimal strings. */
  ghost predicate OneNotation(cells: set<Cell>) {
    forall a, b :: a in cells && b in cells && a.Number? && b.DecimalText? ==> PrintsDecimal(a)
  }

  /** The comparator is antisymmetric in sign and transitive on the cells, as ECMA-262 requires of one. */
  ghost predicate Consistent(other: Fallback, cells: set<Cell>) {
    && (forall a, b :: a in cells && b in cells ==> (CompareValues(other, a, b) <= 0.0 <==> CompareValues(other, b, a) >= 0.0))
    && (forall a, b, c :: a in cells && b in cells && c in cells && CompareValues(other, a, b) <= 0.0 && CompareValues(other, b, c) <= 0.0
          ==> CompareValues(other, a, c) <= 0.0)
  }

  /** `compareValues` orders a column exactly when the column uses a single missing marker. */
  lemma ConsistentExactly(other: Fallback, cells: set<Cell>)
    requires OneNotation(cells)
    ensures Consistent(other, cells) <==> OneMarker(cells)
  {
    if Consistent(other, cells) {
      forall a, b | a in cells && b in cells && Missing(a) && Missing(b)
        ensures a == b
      {
        assert CompareValues(other, a, b) <= 0.0 <==> CompareValues(other, b, a) >= 0.0;
      }
    }
  }

  /**
   0.0000001 prints as 1e-7, which `localeCompare` with numeric collation puts after "0.5", while
   0.2 lies between them.
   */
  lemma ExponentDisagrees(other: Fallback)
    requires other(Number(0.0000001), DecimalText(0.5)) > 0.0
    ensures !Consistent(other, {Number(0.0000001), Number(0.2), DecimalText(0.5)})
    ensures CompareValues(other, Number(0.0000001), DecimalText(0.5)) == other(Number(0.0000001), DecimalText(0.5))
    ensures CompareValues(other, DecimalText(0.5), Number(0.0000001)) == other(DecimalText(0.5), Number(0.0000001))
  {
    var (a, b, c) := (Number(0.0000001), Number(0.2), DecimalText(0.5));
    assert CompareValues(other, a, b) <= 0.0 && CompareValues(other, b, c) <= 0.0 && CompareValues(other, a, c) > 0.0;
  }

  function ColumnCells(data: seq<Row>, key: string): set<Cell> {
    set row | row in data :: Get(row, key)
  }

  ghost predicate UniformColumns(data: seq<Row>, active: seq<SortKey>) {
    forall k :: k in active ==> OneMarker(ColumnCells(data, k.key)) && OneNotation(ColumnCells(data, k.key))
  }

  lemma KeyOrders(other: Fallback, data: seq<Row>, k: SortKey)
    requires OneMarker(ColumnCells(data, k.key)) && OneNotation(ColumnCells(data, k.key))
    ensures TotalPreorderOn(AtMostBy(other, k), data)
    ensures forall a, b :: a in data && b in data ==> (CompareBy(other, k, a, b) <= 0.0 <==> CompareBy(other, k, b, a) >= 0.0)
  {
    var cells := ColumnCells(data, k.key);
    assert forall row :: row in data ==> Get(row, k.key) in cells;
  }

  lemma {:induction false} RowsOrder(other: Fallback, data: seq<Row>, active: seq<SortKey>)
    requires UniformColumns(data, active)
    ensures TotalPreorderOn(AtMost(other, active), data)
    ensures forall a, b :: a in data && b in data ==> (CompareRows(other, active, a, b) <= 0.0 <==> CompareRows(other, active, b, a) >= 0.0)
  {
    if active != [] {
      assert active[0] in active && forall k :: k in active[1..] ==> k in active;
      KeyOrders(other, data, active[0]);
      RowsOrder(other, data, active[1..]);
      var first, rest := AtMostBy(other, active[0]), AtMost(other, active[1..]);
      forall a, b, c | a in data && b in data && c in data && AtMost(other, active)(a, b) && AtMost(other, active)(b, c)
        ensures AtMost(other, active)(a, c)
      {
        assert first(a, b) && first(b, c) && first(a, c);
        if CompareBy(other, active[0], a, c) == 0.0 {
          assert first(c, a) && first(b, a) && first(c, b);
          assert rest(a, b) && rest(b, c);
        }
      }
    }
  }

  // ----- Sorting by several keys is sorting by one key after another

  /** Stable sorts by a single key each, applied from the last key back to the first. */
  function SortKeyByKey(other: Fallback, active: seq<SortKey>, data: seq<Row>): seq<Row> {
    if active == [] then data else Sort(AtMostBy(other, active[0]), SortKeyByKey(other, active[1..], data))
  }

  lemma {:induction false} KeyByKeyIsStable(other: Fallback, active: seq<SortKey>, data: seq<Row>)
    requires UniformColumns(data, active)
    ensures active != [] ==> IsStableSort(AtMost(other, active), data, SortKeyByKey(other, active, data))
    ensures active == [] ==> SortKeyByKey(other, active, data) == data
  {
    if active == [] {
      return;
    }
    var rest := active[1..];
    assert active[0] in active && forall k :: k in rest ==> k in active;
    KeyByKeyIsStable(other, rest, data);
    var before := SortKeyByKey(other, rest, data);
    assert multiset(before) == multiset(data);
    KeyOrders(other, data, active[0]);
    RowsOrder(other, data, rest);
    RowsOrder(other, data, active);
    forall x
      ensures x in before <==> x in data
    {
      SameElements(before, data, x);
    }
    var first := AtMostBy(other, active[0]);
    SortIsStable(first, before, data);
    var after := Sort(first, before);
    forall x
      ensures x in after <==> x in data
    {
      SameElements(after, data, x);
    }
    KeyByKeySorted(other, active, data, before, after);
    forall x | x in data
      ensures Filter(Like(AtMost(other, active), x), after) == Filter(Like(AtMost(other, active), x), data)
    {
      KeyByKeyTies(other, active, data, before, after, x);
    }
  }

  lemma KeyByKeySorted(other: Fallback, active: seq<SortKey>, data: seq<Row>, before: seq<Row>, after: seq<Row>)
    requires active != [] && UniformColumns(data, active)
    requires TotalPreorderOn(AtMostBy(other, active[0]), data)
    requires forall x :: x in after ==> x in data
    requires forall x :: x in before ==> x in data
    requires active[1..] != [] ==> Sorted(AtMost(other, active[1..]), before)
    requires Sorted(AtMostBy(other, active[0]), after)
    requires forall c :: c in data ==> Filter(Like(AtMostBy(other, active[0]), c), after) == Filter(Like(AtMostBy(other, active[0]), c), before)
    ensures Sorted(AtMost(other, active), after)
  {
    var first := AtMostBy(other, active[0]);
    forall i, j | 0 <= i < j < |after|
      ensures AtMost(other, active)(after[i], after[j])
    {
      var a, b := after[i], after[j];
      assert a in data && b in data;
      assert first(a, b);
      if CompareBy(other, active[0], a, b) == 0.0 && active[1..] != [] {
        assert active[0] in active;
        KeyOrders(other, data, active[0]);
        var p := Like(first, a);
        assert p(a) && p(b);
        var i', j' := FilterOrder(p, after, i, j);
        FilterSorted(AtMost(other, active[1..]), p, before);
        var class_ := Filter(p, before);
        assert class_ == Filter(p, after) && class_[i'] == a && class_[j'] == b;
        assert AtMost(other, active[1..])(a, b);
      }
      assert CompareBy(other, active[0], a, b) == 0.0 ==> CompareRows(other, active, a, b) == CompareRows(other, active[1..], a, b);
      assert active[1..] == [] ==> CompareRows(other, active[1..], a, b) == 0.0;
    }
  }

  lemma KeyByKeyTies(other: Fallback, active: seq<SortKey>, data: seq<Row>, before: seq<Row>, after: seq<Row>, x: Row)
    requires active != [] && UniformColumns(data, active) && x in data
    requires forall y :: y in after ==> y in data
    requires forall y :: y in before ==> y in data
    requires active[1..] == [] ==> before == data
    requires active[1..] != [] ==> Filter(Like(AtMost(other, active[1..]), x), before) == Filter(Like(AtMost(other, active[1..]), x), data)
    requires Filter(Like(AtMostBy(other, active[0]), x), after) == Filter(Like(AtMostBy(other, active[0]), x), before)
    ensures Filter(Like(AtMost(other, active), x), after) == Filter(Like(AtMost(other, active), x), data)
  {
    var all, first, rest := Like(AtMost(other, active), x), Like(AtMostBy(other, active[0]), x), Like(AtMost(other, active[1..]), x);
    assert active[0] in active;
    KeyOrders(other, data, active[0]);
    forall y | y in data && all(y)
      ensures first(y) && rest(y)
    {
    }
    FilterNested(first, all, after);
    FilterNested(first, all, before);
    if active[1..] != [] {
      FilterNested(rest, all, before);
      FilterNested(rest, all, data);
    }
  }

  /**
   The main result. When every active column uses a single missing marker, `sortRows` gives
   a permutation of the data, ordered by the first key and then the later ones, with ties in
   input order also for descending keys; that is the only such list, and it is what stable
   single-key sorts give when applied from the last key to the first.
   */
  lemma SortRowsIsKeyByKey(other: Fallback, data: seq<Row>, columns: seq<Column>, sortList: seq<SortKey>)
    requires UniformColumns(data, ActiveKeys(columns, sortList))
    ensures var active := ActiveKeys(columns, sortList);
            && SortRows(other, data, columns, sortList) == SortKeyByKey(other, active, data)
            && IsStableSort(AtMost(other, active), data, SortRows(other, data, columns, sortList))
            && (forall t :: IsStableSort(AtMost(other, active), data, t) ==> t == SortRows(other, data, columns, sortList))
  {
    var active := ActiveKeys(columns, sortList);
    RowsOrder(other, data, active);
    KeyByKeyIsStable(other, active, data);
    StableSortExists(AtMost(other, active), data);
    if active == [] {
      assert IsStableSort(AtMost(other, active), data, data);
      StableSortIsUnique(AtMost(other, active), data, data);
    } else {
      StableSortIsUnique(AtMost(other, active), data, SortKeyByKey(other, active, data));
    }
    forall t | IsStableSort(AtMost(other, active), data, t)
      ensures t == SortRows(other, data, columns, sortList)
    {
      StableSortIsUnique(AtMost(other, active), data, t);
    }
  }

  // ----- What the order means

  /** Both cells are missing, or they have the same value. */
  predicate SameValue(a: Cell, b: Cell) {
    if Missing(a) || Missing(b) then Missing(a) && Missing(b) else a.r == b.r
  }

  /** Ascending values rise and missing ones come last; descending values fall and missing ones come first. */
  predicate Before(direction: Direction, a: Cell, b: Cell) {
    match direction
    case Ascending => Missing(b) || (!Missing(a) && a.r <= b.r)
    case Descending => Missing(a) || (!Missing(b) && a.r >= b.r)
  }

  lemma FirstKeysTie(other: Fallback, data: seq<Row>, k: SortKey, a: Row, b: Row)
    requires OneMarker(ColumnCells(data, k.key)) && OneNotation(ColumnCells(data, k.key)) && a in data && b in data
    ensures CompareBy(other, k, a, b) == 0.0 <==> SameValue(Get(a, k.key), Get(b, k.key))
    ensures CompareBy(other, k, a, b) <= 0.0 <==> Before(k.direction, Get(a, k.key), Get(b, k.key))
  {
    var cells := ColumnCells(data, k.key);
    assert Get(a, k.key) in cells && Get(b, k.key) in cells;
  }

  /** No key before the `k`-th tells the rows apart. */
  ghost predicate TieBefore(active: seq<SortKey>, a: Row, b: Row, k: nat)
    requires k <= |active|
  {
    forall e :: 0 <= e < k ==> SameValue(Get(a, active[e].key), Get(b, active[e].key))
  }

  /** Rows in the order of several keys are in the order of each of them once all earlier keys tie. */
  lemma {:induction false} AtMostByKey(other: Fallback, data: seq<Row>, active: seq<SortKey>, a: Row, b: Row, k: nat)
    requires UniformColumns(data, active) && a in data && b in data && AtMost(other, active)(a, b) && k < |active|
    requires TieBefore(active, a, b, k)
    ensures Before(active[k].direction, Get(a, active[k].key), Get(b, active[k].key))
  {
    assert active[0] in active && forall e :: e in active[1..] ==> e in active;
    FirstKeysTie(other, data, active[0], a, b);
    if k > 0 {
      assert SameValue(Get(a, active[0].key), Get(b, active[0].key));
      AtMostByKey(other, data, active[1..], a, b, k - 1);
    }
  }

  lemma RowsAreSorted(other: Fallback, data: seq<Row>, columns: seq<Column>, sortList: seq<SortKey>)
    requires UniformColumns(data, ActiveKeys(columns, sortList))
    ensures multiset(SortRows(other, data, columns, sortList)) == multiset(data)
    ensures Sorted(AtMost(other, ActiveKeys(columns, sortList)), SortRows(other, data, columns, sortList))
  {
    hide SortRows, ActiveKeys, AtMost, UniformColumns;
    SortRowsIsKeyByKey(other, data, columns, sortList);
  }

  /**
   What the user sees. Of two rows the result shows the one before the other only if, at the first
   active key that tells them apart, its value is the smaller one (ascending, missing values last)
   or the larger one (descending, missing values first).
   */
  lemma SortedRowsRead(other: Fallback, data: seq<Row>, columns: seq<Column>, sortList: seq<SortKey>, i: nat, j: nat, k: nat)
    requires UniformColumns(data, ActiveKeys(columns, sortList))
    requires i < j < |SortRows(other, data, columns, sortList)| && k < |ActiveKeys(columns, sortList)|
    requires var (active, rows) := (ActiveKeys(columns, sortList), SortRows(other, data, columns, sortList));
             TieBefore(active, rows[i], rows[j], k)
    ensures var (key, rows) := (ActiveKeys(columns, sortList)[k], SortRows(other, data, columns, sortList));
            Before(key.direction, Get(rows[i], key.key), Get(rows[j], key.key))
  {
    hide SortRows, ActiveKeys, UniformColumns, TieBefore, Before, CompareRows;
    var active, rows := ActiveKeys(columns, sortList), SortRows(other, data, columns, sortList);
    RowsAreSorted(other, data, columns, sortList);
    SameElements(rows, data, rows[i]);
    SameElements(rows, data, rows[j]);
    assert AtMost(other, active)(rows[i], rows[j]);
    AtMostByKey(other, data, active, rows[i], rows[j], k);
  }

  /** The active keys are those of sortable columns, in the order of the sort list. */
  lemma {:induction false} ActiveKeysExactly(columns: seq<Column>, sortList: seq<SortKey>)
    ensures ActiveKeys(columns, sortList) == Filter((k: SortKey) => exists c :: c in columns && c.id == k.key && c.sortable, sortList)
  {
    if sortList != [] {
      ActiveKeysExactly(columns, sortList[1..]);
    }
  }

  /** With two kinds of missing marker in a column the comparator calls each of them the greater one. */
  lemma TwoMarkersDisagree(other: Fallback)
    ensures CompareValues(other, Null, EmptyText) > 0.0 && CompareValues(other, EmptyText, Null) > 0.0
  {
  }

  // ----- The sort list that clicks build

  predicate DistinctKeys(list: seq<SortKey>) {
    forall i, j :: 0 <= i < j < |list| ==> list[i].key != list[j].key
  }

  function Flip(d: Direction): Direction {
    if d == Ascending then Descending else Ascending
  }

  /** The index of the entry for `key`, or the length of the list. */
  function Position(list: seq<SortKey>, key: string): (i: nat)
    ensures i <= |list| && (i < |list| ==> list[i].key == key) && forall j :: 0 <= j < i ==> list[j].key != key
  {
    if list == [] || list[0].key == key then 0 else 1 + Position(list[1..], key)
  }

  class SortControl {
    var localSort: seq<SortKey>

    constructor (defaultSort: seq<SortKey>)
      ensures localSort == defaultSort
    {
      localSort := defaultSort;
    }

    /** A click leaves one entry; a shift-click adds a last entry or flips the first one of that key. Distinct keys stay distinct. */
    method HandleSort(key: string, shiftKey: bool)
      modifies this
      ensures DistinctKeys(old(localSort)) ==> DistinctKeys(localSort)
      ensures !shiftKey ==>
                && |localSort| == 1 && localSort[0].key == key
                && (localSort[0].direction == Descending <==> old(localSort) != [] && old(localSort)[0] == SortKey(key, Ascending))
      ensures shiftKey && (forall e :: e in old(localSort) ==> e.key != key) ==> localSort == old(localSort) + [SortKey(key, Ascending)]
      ensures forall i :: shiftKey && 0 <= i < |old(localSort)| && old(localSort)[i].key == key
                          && (forall j :: 0 <= j < i ==> old(localSort)[j].key != key) ==>
                && |localSort| == |old(localSort)| && localSort == old(localSort)[i := localSort[i]] && localSort[i].key == key
                && localSort[i].direction != old(localSort)[i].direction
    {
      var existing := Position(localSort, key);
      if shiftKey {
        if existing == |localSort| {
          localSort := localSort + [SortKey(key, Ascending)];
        } else {
          localSort := localSort[existing := SortKey(key, Flip(localSort[existing].direction))];
        }
      } else if localSort != [] && localSort[0].key == key {
        localSort := [SortKey(key, Flip(localSort[0].direction))];
      } else {
        localSort := [SortKey(key, Ascending)];
      }
    }
  }
}
