/**
 Phone number canonicalization, apps/api/scripts/canonicalize-phone-numbers.js.

 Rows are grouped by canonical number within their scope (one scope for users, the owner for
 contacts). A group of one whose number is not canonical is updated; a larger group is
 reported for manual review and left alone; a row whose number cannot be read is skipped.
 */
module PhoneCanonicalization {
  import opened PhoneNumbers
  import opened PhoneTable
  import opened Prelude

  /** The key of a group: rows of one scope that share a canonical number. */
  type Key = (string, string)

  datatype Group = Group(key: Key, rows: seq<Row>)

  datatype Report = Report(invalid: seq<Row>, alreadyCanonicalCount: nat, groups: seq<Group>, collisions: seq<Group>, updates: seq<Change>)

  // ----- Grouping, as an insertion-ordered map

  /** The index of the group with this key, or the number of groups. */
  function GroupIndex(groups: seq<Group>, key: Key): (i: nat)
    ensures i <= |groups| && (i < |groups| ==> groups[i].key == key) && forall j :: 0 <= j < i ==> groups[j].key != key
  {
    if groups == [] || groups[0].key == key then 0 else 1 + GroupIndex(groups[1..], key)
  }

  /** `if (!groups.has(key)) groups.set(key, []); groups.get(key).push(row)`. */
  function Push(groups: seq<Group>, key: Key, row: Row): seq<Group> {
    var i := GroupIndex(groups, key);
    if i == |groups| then groups + [Group(key, [row])]
    else groups[i := Group(key, groups[i].rows + [row])]
  }

  const EMPTY := Report([], 0, [], [], [])

  function ScanRow(report: Report, row: Row, canon: Canonicalizer): Report {
    match canon(row.phone)
    case None => report.(invalid := report.invalid + [row])
    case Some(canonical) =>
      report.(alreadyCanonicalCount := report.alreadyCanonicalCount + if canonical == row.phone then 1 else 0,
              groups := Push(report.groups, (row.scope, canonical), row))
  }

  function ScanRows(rows: seq<Row>, canon: Canonicalizer): Report {
    if rows == [] then EMPTY else ScanRow(ScanRows(rows[..|rows| - 1], canon), rows[|rows| - 1], canon)
  }

  /** One group of the second loop: report it, update its only row, or nothing. */
  function JudgeGroup(report: Report, g: Group): Report {
    if |g.rows| > 1 then report.(collisions := report.collisions + [g])
    else if |g.rows| == 1 && g.rows[0].phone != g.key.1 then
      report.(updates := report.updates + [Change(g.rows[0].id, g.rows[0].phone, g.key.1)])
    else report
  }

  function JudgeGroups(report: Report, groups: seq<Group>): Report
    decreases |groups|
  {
    if groups == [] then report else JudgeGroups(JudgeGroup(report, groups[0]), groups[1..])
  }

  function Scan(rows: seq<Row>, canon: Canonicalizer): Report {
    var report := ScanRows(rows, canon);
    JudgeGroups(report, report.groups)
  }

  // ----- What the groups are

  /** The group a row belongs to; None for an unreadable number. */
  function KeyOf(row: Row, canon: Canonicalizer): Option<Key> {
    match canon(row.phone)
    case None => None
    case Some(canonical) => Some((row.scope, canonical))
  }

  /** The rows of a group in table order. */
  function Members(rows: seq<Row>, canon: Canonicalizer, key: Key): seq<Row> {
    if rows == [] then []
    else Members(rows[..|rows| - 1], canon, key) + if KeyOf(rows[|rows| - 1], canon) == Some(key) then [rows[|rows| - 1]] else []
  }

  /** The keys in the order in which their first rows occur. */
  function KeysInOrder(rows: seq<Row>, canon: Canonicalizer): seq<Key> {
    if rows == [] then []
    else
      var before := KeysInOrder(rows[..|rows| - 1], canon);
      match KeyOf(rows[|rows| - 1], canon)
      case None => before
      case Some(key) => if key in before then before else before + [key]
  }

  /** The groups are the keys in order, each with its members, none of them empty. */
  ghost predicate GroupsAre(groups: seq<Group>, rows: seq<Row>, canon: Canonicalizer) {
    var keys := KeysInOrder(rows, canon);
    && |groups| == |keys|
    && (forall i :: 0 <= i < |groups| ==> groups[i] == Group(keys[i], Members(rows, canon, keys[i])))
    && (forall i, j :: 0 <= i < j < |keys| ==> keys[i] != keys[j])
    && (forall key :: key !in keys <==> Members(rows, canon, key) == [])
  }

  lemma PushKeeps(groups: seq<Group>, rows: seq<Row>, row: Row, canon: Canonicalizer, key: Key)
    requires GroupsAre(groups, rows, canon) && KeyOf(row, canon) == Some(key)
    ensures GroupsAre(Push(groups, key, row), rows + [row], canon)
  {
    var all := rows + [row];
    assert all[..|all| - 1] == rows;
    var keys := KeysInOrder(rows, canon);
    var i := GroupIndex(groups, key);
    forall k
      ensures Members(all, canon, k) == Members(rows, canon, k) + if k == key then [row] else []
    {
    }
    if i < |groups| {
      assert keys[i] == key;
    } else {
      assert forall j :: 0 <= j < |keys| ==> groups[j].key == keys[j];
    }
  }

  lemma SkipKeeps(groups: seq<Group>, rows: seq<Row>, row: Row, canon: Canonicalizer)
    requires GroupsAre(groups, rows, canon) && KeyOf(row, canon) == None
    ensures GroupsAre(groups, rows + [row], canon)
  {
    var all := rows + [row];
    assert all[..|all| - 1] == rows;
    forall k
      ensures Members(all, canon, k) == Members(rows, canon, k)
    {
    }
  }

  lemma {:induction false} ScanGroups(rows: seq<Row>, canon: Canonicalizer)
    ensures GroupsAre(ScanRows(rows, canon).groups, rows, canon)
    ensures ScanRows(rows, canon).collisions == [] && ScanRows(rows, canon).updates == []
  {
    if rows != [] {
      var init, row := rows[..|rows| - 1], rows[|rows| - 1];
      ScanGroups(init, canon);
      assert rows == init + [row];
      hide GroupsAre;
      match KeyOf(row, canon) {
        case None => SkipKeeps(ScanRows(init, canon).groups, init, row, canon);
        case Some(key) => PushKeeps(ScanRows(init, canon).groups, init, row, canon, key);
      }
    }
  }

  // ----- The verdicts as functions of the keys

  function CollisionsAmong(rows: seq<Row>, canon: Canonicalizer, keys: seq<Key>): seq<Group> {
    if keys == [] then []
    else
      var members := Members(rows, canon, keys[0]);
      (if |members| > 1 then [Group(keys[0], members)] else []) + CollisionsAmong(rows, canon, keys[1..])
  }

  function UpdatesAmong(rows: seq<Row>, canon: Canonicalizer, keys: seq<Key>): seq<Change> {
    if keys == [] then []
    else
      var members := Members(rows, canon, keys[0]);
      (if |members| == 1 && members[0].phone != keys[0].1 then [Change(members[0].id, members[0].phone, keys[0].1)] else [])
      + UpdatesAmong(rows, canon, keys[1..])
  }

  lemma {:induction false} JudgeIsByKey(report: Report, groups: seq<Group>, rows: seq<Row>, canon: Canonicalizer, keys: seq<Key>)
    requires |groups| == |keys| && forall i :: 0 <= i < |groups| ==> groups[i] == Group(keys[i], Members(rows, canon, keys[i]))
    ensures JudgeGroups(report, groups)
         == report.(collisions := report.collisions + CollisionsAmong(rows, canon, keys),
                    updates := report.updates + UpdatesAmong(rows, canon, keys))
    decreases |groups|
  {
    if groups != [] {
      JudgeIsByKey(JudgeGroup(report, groups[0]), groups[1..], rows, canon, keys[1..]);
      assert groups[0] == Group(keys[0], Members(rows, canon, keys[0]));
      JudgeFirst(report, rows, canon, keys);
      hide JudgeGroup, CollisionsAmong, UpdatesAmong, Members;
    }
  }

  /** The first group adds what it stands for, in front of the others. */
  lemma JudgeFirst(report: Report, rows: seq<Row>, canon: Canonicalizer, keys: seq<Key>)
    requires keys != []
    ensures var next := JudgeGroup(report, Group(keys[0], Members(rows, canon, keys[0])));
            && next == report.(collisions := next.collisions, updates := next.updates)
            && next.collisions + CollisionsAmong(rows, canon, keys[1..]) == report.collisions + CollisionsAmong(rows, canon, keys)
            && next.updates + UpdatesAmong(rows, canon, keys[1..]) == report.updates + UpdatesAmong(rows, canon, keys)
  {
    hide Members;
    var members := Members(rows, canon, keys[0]);
    var found := if |members| > 1 then [Group(keys[0], members)] else [];
    var moved := if |members| == 1 && members[0].phone != keys[0].1 then [Change(members[0].id, members[0].phone, keys[0].1)] else [];
    assert CollisionsAmong(rows, canon, keys) == found + CollisionsAmong(rows, canon, keys[1..]);
    assert UpdatesAmong(rows, canon, keys) == moved + UpdatesAmong(rows, canon, keys[1..]);
    assert JudgeGroup(report, Group(keys[0], members)) == report.(collisions := report.collisions + found, updates := report.updates + moved);
    hide CollisionsAmong, UpdatesAmong, JudgeGroup;
    Regroup(report.collisions, found, CollisionsAmong(rows, canon, keys[1..]));
    Regroup(report.updates, moved, UpdatesAmong(rows, canon, keys[1..]));
  }

  lemma ScanIsByKey(rows: seq<Row>, canon: Canonicalizer)
    ensures Scan(rows, canon).collisions == CollisionsAmong(rows, canon, KeysInOrder(rows, canon))
    ensures Scan(rows, canon).updates == UpdatesAmong(rows, canon, KeysInOrder(rows, canon))
    ensures Scan(rows, canon).invalid == ScanRows(rows, canon).invalid
    ensures Scan(rows, canon).alreadyCanonicalCount == ScanRows(rows, canon).alreadyCanonicalCount
  {
    ScanGroups(rows, canon);
    JudgeIsByKey(ScanRows(rows, canon), ScanRows(rows, canon).groups, rows, canon, KeysInOrder(rows, canon));
  }

  // ----- Every row falls in exactly one class

  datatype Class = Invalid | Colliding | Canonical | Updated

  function Classify(rows: seq<Row>, canon: Canonicalizer, row: Row): Class {
    match KeyOf(row, canon)
    case None => Invalid
    case Some(key) =>
      if |Members(rows, canon, key)| > 1 then Colliding
      else if row.phone == key.1 then Canonical
      else Updated
  }

  lemma {:induction false} MemberIffKey(rows: seq<Row>, canon: Canonicalizer, key: Key, row: Row)
    ensures row in Members(rows, canon, key) <==> row in rows && KeyOf(row, canon) == Some(key)
  {
    if rows != [] {
      MemberIffKey(rows[..|rows| - 1], canon, key, row);
      assert rows == rows[..|rows| - 1] + [rows[|rows| - 1]];
    }
  }

  /** Two rows of one group make it larger than one. */
  lemma {:induction false} TwoMembers(rows: seq<Row>, canon: Canonicalizer, key: Key, i: nat, j: nat)
    requires i < j < |rows| && KeyOf(rows[i], canon) == Some(key) == KeyOf(rows[j], canon)
    ensures |Members(rows, canon, key)| > 1
  {
    var init := rows[..|rows| - 1];
    if j < |rows| - 1 {
      TwoMembers(init, canon, key, i, j);
    } else {
      MemberIffKey(init, canon, key, init[i]);
    }
  }

  /** A group larger than one has two rows. */
  lemma {:induction false} MembersAreTwo(rows: seq<Row>, canon: Canonicalizer, key: Key) returns (i: nat, j: nat)
    requires |Members(rows, canon, key)| > 1
    ensures i < j < |rows| && KeyOf(rows[i], canon) == Some(key) == KeyOf(rows[j], canon)
  {
    var init := rows[..|rows| - 1];
    if |Members(init, canon, key)| > 1 {
      i, j := MembersAreTwo(init, canon, key);
    } else {
      var m := Members(init, canon, key);
      assert m[0] in m;
      MemberIffKey(init, canon, key, m[0]);
      i :| 0 <= i < |init| && init[i] == m[0];
      j := |rows| - 1;
    }
  }

  /** A row may move exactly when its number is readable and its group has no other row. */
  lemma MovableExactly(rows: seq<Row>, canon: Canonicalizer, i: nat)
    requires i < |rows|
    ensures Movable(rows, canon, i) <==> Classify(rows, canon, rows[i]) == Canonical || Classify(rows, canon, rows[i]) == Updated
  {
    if canon(rows[i].phone).Some? {
      var key := KeyOf(rows[i], canon).value;
      if |Members(rows, canon, key)| > 1 {
        var a, b := MembersAreTwo(rows, canon, key);
        var other := if a == i then b else a;
        assert canon(rows[other].phone) == canon(rows[i].phone) && rows[other].scope == rows[i].scope;
      } else {
        forall j | 0 <= j < |rows| && j != i && rows[j].scope == rows[i].scope
          ensures canon(rows[j].phone) != canon(rows[i].phone)
        {
          if canon(rows[j].phone) == canon(rows[i].phone) {
            if i < j {
              TwoMembers(rows, canon, key, i, j);
            } else {
              TwoMembers(rows, canon, key, j, i);
            }
          }
        }
      }
    }
  }

  // ----- The updates

  function ChangeOf(row: Row, canon: Canonicalizer): Change {
    Change(row.id, row.phone, if canon(row.phone).Some? then canon(row.phone).value else row.phone)
  }

  /** `c` is the change of a row of class Updated whose group is among the keys. */
  ghost predicate ProposedAmong(rows: seq<Row>, canon: Canonicalizer, keys: seq<Key>, c: Change) {
    exists row :: row in rows && KeyOf(row, canon).Some? && KeyOf(row, canon).value in keys
                  && Classify(rows, canon, row) == Updated && c == ChangeOf(row, canon)
  }

  lemma UpdateOfGroup(rows: seq<Row>, canon: Canonicalizer, key: Key, c: Change)
    ensures var members := Members(rows, canon, key);
            |members| == 1 && members[0].phone != key.1 && c == Change(members[0].id, members[0].phone, key.1)
            <==> ProposedAmong(rows, canon, [key], c)
  {
    var members := Members(rows, canon, key);
    if |members| == 1 {
      assert members[0] in members;
      MemberIffKey(rows, canon, key, members[0]);
    }
    if ProposedAmong(rows, canon, [key], c) {
      var row :| row in rows && KeyOf(row, canon) == Some(key) && Classify(rows, canon, row) == Updated && c == ChangeOf(row, canon);
      MemberIffKey(rows, canon, key, row);
    }
  }

  lemma {:induction false} UpdatesExactly(rows: seq<Row>, canon: Canonicalizer, keys: seq<Key>, c: Change)
    ensures c in UpdatesAmong(rows, canon, keys) <==> ProposedAmong(rows, canon, keys, c)
  {
    if keys != [] {
      hide Classify, ChangeOf, KeyOf, Members;
      UpdatesExactly(rows, canon, keys[1..], c);
      UpdateOfGroup(rows, canon, keys[0], c);
      assert forall k :: k in keys <==> k in [keys[0]] || k in keys[1..];
      assert ProposedAmong(rows, canon, keys, c) <==> ProposedAmong(rows, canon, [keys[0]], c) || ProposedAmong(rows, canon, keys[1..], c);
    }
  }

  lemma {:induction false} KeysAreAll(rows: seq<Row>, canon: Canonicalizer, row: Row)
    requires row in rows && KeyOf(row, canon).Some?
    ensures KeyOf(row, canon).value in KeysInOrder(rows, canon)
  {
    if row != rows[|rows| - 1] {
      assert row in rows[..|rows| - 1];
      KeysAreAll(rows[..|rows| - 1], canon, row);
    }
  }

  /** The proposals are exactly the rows of class Updated. */
  lemma ProposesExactly(rows: seq<Row>, canon: Canonicalizer, c: Change)
    ensures c in Scan(rows, canon).updates
            <==> exists row :: row in rows && Classify(rows, canon, row) == Updated && c == ChangeOf(row, canon)
  {
    ScanIsByKey(rows, canon);
    UpdatesExactly(rows, canon, KeysInOrder(rows, canon), c);
    forall row | row in rows && KeyOf(row, canon).Some?
      ensures KeyOf(row, canon).value in KeysInOrder(rows, canon)
    {
      KeysAreAll(rows, canon, row);
    }
  }

  lemma {:induction false} UpdatesDistinct(rows: seq<Row>, canon: Canonicalizer, keys: seq<Key>)
    requires UniqueIds(rows) && forall i, j :: 0 <= i < j < |keys| ==> keys[i] != keys[j]
    ensures DistinctIds(UpdatesAmong(rows, canon, keys))
  {
    if keys != [] {
      UpdatesDistinct(rows, canon, keys[1..]);
      var members := Members(rows, canon, keys[0]);
      var rest := UpdatesAmong(rows, canon, keys[1..]);
      if |members| == 1 && members[0].phone != keys[0].1 {
        assert members[0] in members;
        MemberIffKey(rows, canon, keys[0], members[0]);
        forall k | 0 <= k < |rest|
          ensures rest[k].id != members[0].id
        {
          assert rest[k] in rest;
          UpdatesExactly(rows, canon, keys[1..], rest[k]);
        }
      }
    }
  }

  /** The table after the run: rows of class Updated have their canonical number, all others are untouched. */
  function Settled(rows: seq<Row>, canon: Canonicalizer): seq<Row> {
    seq(|rows|, i requires 0 <= i < |rows| =>
      if Classify(rows, canon, rows[i]) == Updated then rows[i].(phone := ChangeOf(rows[i], canon).newPhone) else rows[i])
  }

  /** Applied one by one the updates never meet a taken number; colliding and invalid rows stay as they are. */
  lemma UpdatesGoThrough(rows: seq<Row>, canon: Canonicalizer)
    requires Table(rows) && Canonicalizes(canon)
    ensures ApplyAll(rows, Scan(rows, canon).updates) == Some(Settled(rows, canon))
    ensures Mixture(rows, canon, Settled(rows, canon))
  {
    var updates := Scan(rows, canon).updates;
    ScanIsByKey(rows, canon);
    ScanGroups(rows, canon);
    UpdatesDistinct(rows, canon, KeysInOrder(rows, canon));
    hide Scan, GroupsAre, Classify, KeysInOrder, UpdatesAmong;
    forall c | c in updates
      ensures Legal(rows, canon, c)
    {
      ProposesExactly(rows, canon, c);
      var row :| row in rows && Classify(rows, canon, row) == Updated && c == ChangeOf(row, canon);
      var i :| 0 <= i < |rows| && rows[i] == row;
      MovableExactly(rows, canon, i);
    }
    BaseIsMixture(rows, canon);
    var after := AllSucceed(rows, canon, rows, updates);
    SettledIs(rows, canon, updates, after);
  }

  lemma SettledIs(rows: seq<Row>, canon: Canonicalizer, updates: seq<Change>, after: seq<Row>)
    requires UniqueIds(rows) && updates == Scan(rows, canon).updates && ChangedBy(rows, updates, after)
    ensures after == Settled(rows, canon)
  {
    hide Scan, Classify;
    forall i | 0 <= i < |rows|
      ensures after[i] == Settled(rows, canon)[i]
    {
      if Classify(rows, canon, rows[i]) == Updated {
        assert rows[i] in rows;
        ProposesExactly(rows, canon, ChangeOf(rows[i], canon));
        var k :| 0 <= k < |updates| && updates[k] == ChangeOf(rows[i], canon);
      } else {
        forall k | 0 <= k < |updates|
          ensures updates[k].id != rows[i].id
        {
          assert updates[k] in updates;
          ProposesExactly(rows, canon, updates[k]);
          var row :| row in rows && Classify(rows, canon, row) == Updated && updates[k] == ChangeOf(row, canon);
          var j :| 0 <= j < |rows| && rows[j] == row;
        }
      }
    }
  }

  // ----- A second run

  /** The rows correspond one to one and keep their group. */
  ghost predicate SameKeys(rows: seq<Row>, later: seq<Row>, canon: Canonicalizer) {
    |later| == |rows| && forall i :: 0 <= i < |rows| ==> KeyOf(later[i], canon) == KeyOf(rows[i], canon)
  }

  lemma {:induction false} SameKeyOrder(rows: seq<Row>, later: seq<Row>, canon: Canonicalizer)
    requires SameKeys(rows, later, canon)
    ensures KeysInOrder(later, canon) == KeysInOrder(rows, canon)
  {
    if rows != [] {
      SameKeyOrder(rows[..|rows| - 1], later[..|rows| - 1], canon);
    }
  }

  lemma {:induction false} SameMembers(rows: seq<Row>, later: seq<Row>, canon: Canonicalizer, key: Key)
    requires SameKeys(rows, later, canon)
    ensures |Members(later, canon, key)| == |Members(rows, canon, key)|
    ensures (forall i :: 0 <= i < |rows| && KeyOf(rows[i], canon) == Some(key) ==> later[i] == rows[i])
            ==> Members(later, canon, key) == Members(rows, canon, key)
  {
    if rows != [] {
      SameMembers(rows[..|rows| - 1], later[..|rows| - 1], canon, key);
    }
  }

  lemma SettledKeepsKeys(rows: seq<Row>, canon: Canonicalizer)
    requires Canonicalizes(canon)
    ensures SameKeys(rows, Settled(rows, canon), canon)
  {
  }

  /** In the settled table updated rows are canonical and every other row keeps its class. */
  lemma SettledClasses(rows: seq<Row>, canon: Canonicalizer, i: nat)
    requires Canonicalizes(canon) && i < |rows|
    ensures Classify(Settled(rows, canon), canon, Settled(rows, canon)[i])
         == if Classify(rows, canon, rows[i]) == Updated then Canonical else Classify(rows, canon, rows[i])
  {
    SettledKeepsKeys(rows, canon);
    if KeyOf(rows[i], canon).Some? {
      SameMembers(rows, Settled(rows, canon), canon, KeyOf(rows[i], canon).value);
    }
  }

  lemma {:induction false} SameCollisions(rows: seq<Row>, canon: Canonicalizer, keys: seq<Key>)
    requires Canonicalizes(canon)
    ensures CollisionsAmong(Settled(rows, canon), canon, keys) == CollisionsAmong(rows, canon, keys)
  {
    if keys != [] {
      SameCollisions(rows, canon, keys[1..]);
      SettledKeepsKeys(rows, canon);
      SameMembers(rows, Settled(rows, canon), canon, keys[0]);
    }
  }

  /** A second run proposes no updates and reports the same collisions. */
  lemma SecondRunIsQuiet(rows: seq<Row>, canon: Canonicalizer)
    requires Canonicalizes(canon)
    ensures Scan(Settled(rows, canon), canon).updates == []
    ensures Scan(Settled(rows, canon), canon).collisions == Scan(rows, canon).collisions
  {
    var later := Settled(rows, canon);
    ScanIsByKey(rows, canon);
    ScanIsByKey(later, canon);
    SettledKeepsKeys(rows, canon);
    SameKeyOrder(rows, later, canon);
    SameCollisions(rows, canon, KeysInOrder(rows, canon));
    var updates := Scan(later, canon).updates;
    if updates != [] {
      assert updates[0] in updates;
      ProposesExactly(later, canon, updates[0]);
      var row :| row in later && Classify(later, canon, row) == Updated && updates[0] == ChangeOf(row, canon);
      var i :| 0 <= i < |later| && later[i] == row;
      SettledClasses(rows, canon, i);
      assert false;
    }
  }

  // ----- The counts of the report

  function Count(p: Row -> bool, rows: seq<Row>): nat {
    if rows == [] then 0 else Count(p, rows[..|rows| - 1]) + if p(rows[|rows| - 1]) then 1 else 0
  }

  function InClass(rows: seq<Row>, canon: Canonicalizer, c: Class): Row -> bool {
    row => Classify(rows, canon, row) == c
  }

  /** Rows of a class whose group is among the keys. */
  function InClassAmong(rows: seq<Row>, canon: Canonicalizer, c: Class, keys: seq<Key>): Row -> bool {
    row => Classify(rows, canon, row) == c && KeyOf(row, canon).Some? && KeyOf(row, canon).value in keys
  }

  function HasKey(canon: Canonicalizer, key: Key): Row -> bool {
    row => KeyOf(row, canon) == Some(key)
  }

  /** Rows of colliding groups that already have the canonical number. */
  function CollidingCanonical(rows: seq<Row>, canon: Canonicalizer): Row -> bool {
    row => Classify(rows, canon, row) == Colliding && canon(row.phone) == Some(row.phone)
  }

  lemma {:induction false} CountSplit(p: Row -> bool, q: Row -> bool, s: Row -> bool, rows: seq<Row>)
    requires forall row :: row in rows ==> (p(row) <==> q(row) || s(row)) && !(q(row) && s(row))
    ensures Count(p, rows) == Count(q, rows) + Count(s, rows)
  {
    if rows != [] {
      assert rows[|rows| - 1] in rows;
      assert forall row :: row in rows[..|rows| - 1] ==> row in rows;
      CountSplit(p, q, s, rows[..|rows| - 1]);
    }
  }

  lemma {:induction false} CountSame(p: Row -> bool, q: Row -> bool, rows: seq<Row>)
    requires forall row :: row in rows ==> (p(row) <==> q(row))
    ensures Count(p, rows) == Count(q, rows)
  {
    if rows != [] {
      assert rows[|rows| - 1] in rows;
      assert forall row :: row in rows[..|rows| - 1] ==> row in rows;
      CountSame(p, q, rows[..|rows| - 1]);
    }
  }

  lemma {:induction false} CountNone(p: Row -> bool, rows: seq<Row>)
    requires forall row :: row in rows ==> !p(row)
    ensures Count(p, rows) == 0
  {
    if rows != [] {
      assert rows[|rows| - 1] in rows;
      assert forall row :: row in rows[..|rows| - 1] ==> row in rows;
      CountNone(p, rows[..|rows| - 1]);
    }
  }

  lemma {:induction false} CountZero(p: Row -> bool, rows: seq<Row>)
    requires Count(p, rows) == 0
    ensures forall row :: row in rows ==> !p(row)
  {
    if rows != [] {
      CountZero(p, rows[..|rows| - 1]);
      assert forall row :: row in rows <==> row in rows[..|rows| - 1] || row == rows[|rows| - 1];
    }
  }

  lemma {:induction false} CountMembers(rows: seq<Row>, canon: Canonicalizer, key: Key)
    ensures Count(HasKey(canon, key), rows) == |Members(rows, canon, key)|
  {
    if rows != [] {
      CountMembers(rows[..|rows| - 1], canon, key);
    }
  }

  /** The rows of one group that are in a class: the whole group or none of it. */
  lemma CountGroup(rows: seq<Row>, canon: Canonicalizer, c: Class, key: Key)
    requires c == Colliding || c == Updated
    ensures var members := Members(rows, canon, key);
            Count(InClassAmong(rows, canon, c, [key]), rows)
            == if c == Colliding then (if |members| > 1 then |members| else 0)
               else if |members| == 1 && members[0].phone != key.1 then 1 else 0
  {
    CountMembers(rows, canon, key);
    forall row | row in rows
      ensures InClassAmong(rows, canon, c, [key])(row) <==> HasKey(canon, key)(row) && WholeGroup(rows, canon, c, key)
    {
      ClassOfMember(rows, canon, c, key, row);
    }
    hide InClassAmong, HasKey;
    if WholeGroup(rows, canon, c, key) {
      CountSame(InClassAmong(rows, canon, c, [key]), HasKey(canon, key), rows);
    } else {
      CountNone(InClassAmong(rows, canon, c, [key]), rows);
    }
  }

  predicate WholeGroup(rows: seq<Row>, canon: Canonicalizer, c: Class, key: Key) {
    var members := Members(rows, canon, key);
    if c == Colliding then |members| > 1 else |members| == 1 && members[0].phone != key.1
  }

  lemma ClassOfMember(rows: seq<Row>, canon: Canonicalizer, c: Class, key: Key, row: Row)
    requires row in rows && (c == Colliding || c == Updated)
    ensures InClassAmong(rows, canon, c, [key])(row) <==> HasKey(canon, key)(row) && WholeGroup(rows, canon, c, key)
  {
    MemberIffKey(rows, canon, key, row);
    hide Members;
  }

  function TotalRows(groups: seq<Group>): nat {
    if groups == [] then 0 else |groups[0].rows| + TotalRows(groups[1..])
  }

  lemma {:induction false} TotalAppend(a: seq<Group>, b: seq<Group>)
    ensures TotalRows(a + b) == TotalRows(a) + TotalRows(b)
  {
    if a == [] {
      assert a + b == b;
    } else {
      assert (a + b)[1..] == a[1..] + b;
      TotalAppend(a[1..], b);
    }
  }

  lemma {:induction false} CountAmong(rows: seq<Row>, canon: Canonicalizer, keys: seq<Key>)
    requires forall i, j :: 0 <= i < j < |keys| ==> keys[i] != keys[j]
    ensures TotalRows(CollisionsAmong(rows, canon, keys)) == Count(InClassAmong(rows, canon, Colliding, keys), rows)
    ensures |UpdatesAmong(rows, canon, keys)| == Count(InClassAmong(rows, canon, Updated, keys), rows)
  {
    if keys == [] {
      CountNone(InClassAmong(rows, canon, Colliding, keys), rows);
      CountNone(InClassAmong(rows, canon, Updated, keys), rows);
    } else {
      var first, rest := [keys[0]], keys[1..];
      CountAmong(rows, canon, rest);
      CountGroup(rows, canon, Colliding, keys[0]);
      CountGroup(rows, canon, Updated, keys[0]);
      assert keys[0] !in rest && forall k :: k in keys <==> k == keys[0] || k in rest;
      CountSplit(InClassAmong(rows, canon, Colliding, keys), InClassAmong(rows, canon, Colliding, first), InClassAmong(rows, canon, Colliding, rest), rows);
      CountSplit(InClassAmong(rows, canon, Updated, keys), InClassAmong(rows, canon, Updated, first), InClassAmong(rows, canon, Updated, rest), rows);
      var members := Members(rows, canon, keys[0]);
      TotalAppend(if |members| > 1 then [Group(keys[0], members)] else [], CollisionsAmong(rows, canon, rest));
    }
  }

  lemma {:induction false} CountScanned(rows: seq<Row>, canon: Canonicalizer)
    ensures |ScanRows(rows, canon).invalid| == Count((row: Row) => KeyOf(row, canon).None?, rows)
    ensures ScanRows(rows, canon).alreadyCanonicalCount == Count((row: Row) => canon(row.phone) == Some(row.phone), rows)
  {
    if rows != [] {
      CountScanned(rows[..|rows| - 1], canon);
      CountSame((row: Row) => KeyOf(row, canon).None?, (row: Row) => KeyOf(row, canon).None?, rows[..|rows| - 1]);
    }
  }

  lemma {:induction false} CountClasses(whole: seq<Row>, canon: Canonicalizer, rows: seq<Row>)
    ensures |rows| == Count(InClass(whole, canon, Invalid), rows) + Count(InClass(whole, canon, Colliding), rows)
                      + Count(InClass(whole, canon, Canonical), rows) + Count(InClass(whole, canon, Updated), rows)
  {
    if rows != [] {
      CountClasses(whole, canon, rows[..|rows| - 1]);
    }
  }

  /** Each count of the report, as the size of a class. */
  lemma ReportCounts(rows: seq<Row>, canon: Canonicalizer)
    ensures var report := Scan(rows, canon);
            && |report.invalid| == Count(InClass(rows, canon, Invalid), rows)
            && TotalRows(report.collisions) == Count(InClass(rows, canon, Colliding), rows)
            && |report.updates| == Count(InClass(rows, canon, Updated), rows)
            && report.alreadyCanonicalCount == Count(InClass(rows, canon, Canonical), rows) + Count(CollidingCanonical(rows, canon), rows)
            && |rows| == |report.invalid| + TotalRows(report.collisions) + Count(InClass(rows, canon, Canonical), rows) + |report.updates|
  {
    var keys := KeysInOrder(rows, canon);
    ScanIsByKey(rows, canon);
    ScanGroups(rows, canon);
    CountAmong(rows, canon, keys);
    CountScanned(rows, canon);
    CountClasses(rows, canon, rows);
    forall row | row in rows && KeyOf(row, canon).Some?
      ensures KeyOf(row, canon).value in keys
    {
      KeysAreAll(rows, canon, row);
    }
    CountSame((row: Row) => KeyOf(row, canon).None?, InClass(rows, canon, Invalid), rows);
    CountSame(InClassAmong(rows, canon, Colliding, keys), InClass(rows, canon, Colliding), rows);
    CountSame(InClassAmong(rows, canon, Updated, keys), InClass(rows, canon, Updated), rows);
    CountSplit((row: Row) => canon(row.phone) == Some(row.phone), InClass(rows, canon, Canonical), CollidingCanonical(rows, canon), rows);
  }

  /** The invalid rows of the report are those whose number cannot be read, in table order. */
  lemma {:induction false} InvalidInOrder(rows: seq<Row>, canon: Canonicalizer, row: Row)
    ensures ScanRows(rows + [row], canon).invalid == ScanRows(rows, canon).invalid + if canon(row.phone).None? then [row] else []
    ensures Scan(rows, canon).invalid == ScanRows(rows, canon).invalid
  {
    assert (rows + [row])[..|rows|] == rows;
    ScanIsByKey(rows, canon);
  }

  lemma {:induction false} CollisionsExactly(rows: seq<Row>, canon: Canonicalizer, keys: seq<Key>, g: Group)
    ensures g in CollisionsAmong(rows, canon, keys) <==> g.key in keys && g.rows == Members(rows, canon, g.key) && |g.rows| > 1
  {
    if keys != [] {
      CollisionsExactly(rows, canon, keys[1..], g);
    }
  }

  /**
   The collisions of the report are the groups of two and more rows of one scope with one canonical
   number, each with all of its rows.
   */
  lemma ReportsCollisions(rows: seq<Row>, canon: Canonicalizer, g: Group)
    ensures g in Scan(rows, canon).collisions <==> g.rows == Members(rows, canon, g.key) && |g.rows| > 1
    ensures forall row :: row in Members(rows, canon, g.key) <==>
              row in rows && canon(row.phone) == Some(g.key.1) && row.scope == g.key.0
  {
    var keys := KeysInOrder(rows, canon);
    ScanIsByKey(rows, canon);
    ScanGroups(rows, canon);
    CollisionsExactly(rows, canon, keys, g);
    assert g.key !in keys <==> Members(rows, canon, g.key) == [];
    hide Scan, Members, KeysInOrder;
    forall row
      ensures row in Members(rows, canon, g.key) <==> row in rows && KeyOf(row, canon) == Some(g.key)
    {
      MemberIffKey(rows, canon, g.key, row);
    }
  }

  /**
   The printed counts (invalid, already canonical, updates, rows in collisions) add up to the
   scanned rows exactly when no colliding group contains a row that is canonical already: the
   scan counts such a row both as already canonical and in its collision.
   */
  lemma CountsAddUpExactly(rows: seq<Row>, canon: Canonicalizer)
    ensures var report := Scan(rows, canon);
            |rows| == |report.invalid| + report.alreadyCanonicalCount + |report.updates| + TotalRows(report.collisions)
            <==> forall row :: row in rows && canon(row.phone) == Some(row.phone) ==> Classify(rows, canon, row) != Colliding
  {
    ReportCounts(rows, canon);
    if Count(CollidingCanonical(rows, canon), rows) == 0 {
      CountZero(CollidingCanonical(rows, canon), rows);
    } else if forall row :: row in rows && canon(row.phone) == Some(row.phone) ==> Classify(rows, canon, row) != Colliding {
      CountNone(CollidingCanonical(rows, canon), rows);
    }
  }

  /** A number in two spellings, one of them canonical: two rows, counted as one canonical and two colliding. */
  lemma CollidingCanonicalCountsTwice(canon: Canonicalizer)
    requires canon("+1") == Some("+1") == canon("1")
    ensures var report := Scan([Row("u", "", "+1"), Row("v", "", "1")], canon);
            report.alreadyCanonicalCount == 1 && TotalRows(report.collisions) == 2 && report.invalid == [] && report.updates == []
  {
    var (u, v, key) := (Row("u", "", "+1"), Row("v", "", "1"), ("", "+1"));
    var (one, two) := (Group(key, [u]), Group(key, [u, v]));
    assert [u, v][..1] == [u] && [u][..0] == [];
    assert Push([], key, u) == [one];
    assert ScanRows([u], canon) == EMPTY.(alreadyCanonicalCount := 1, groups := [one]);
    assert GroupIndex([one], key) == 0 && [u] + [v] == [u, v];
    assert Push([one], key, v) == [two];
    assert v.phone != "+1" by {
      assert |"+1"| == 2 && |v.phone| == 1;
    }
    var scanned := ScanRows([u, v], canon);
    assert scanned == ScanRow(ScanRows([u], canon), v, canon);
    assert [two][1..] == [];
    assert JudgeGroups(scanned, [two]) == JudgeGroups(JudgeGroup(scanned, two), []);
    assert TotalRows([two]) == 2 + TotalRows([]);
  }

  // ----- The wallets of the users

  datatype Wallet = Wallet(id: string, userId: string, phone: Option<string>)

  /** `wallet.updateMany({ where: { userId }, data: { phoneNumber } })`. */
  function UpdateMany(wallets: seq<Wallet>, userId: string, phone: string): seq<Wallet> {
    seq(|wallets|, i requires 0 <= i < |wallets| => if wallets[i].userId == userId then wallets[i].(phone := Some(phone)) else wallets[i])
  }

  function UpdateWallets(wallets: seq<Wallet>, changes: seq<Change>): (after: seq<Wallet>)
    ensures |after| == |wallets|
    decreases |changes|
  {
    if changes == [] then wallets else UpdateWallets(UpdateMany(wallets, changes[0].id, changes[0].newPhone), changes[1..])
  }

  lemma {:induction false} WalletsFollowChanges(wallets: seq<Wallet>, changes: seq<Change>, i: nat)
    requires DistinctIds(changes) && i < |wallets|
    ensures var after := UpdateWallets(wallets, changes)[i];
            && (forall c :: c in changes && c.id == wallets[i].userId ==> after == wallets[i].(phone := Some(c.newPhone)))
            && ((forall c :: c in changes ==> c.id != wallets[i].userId) ==> after == wallets[i])
    decreases |changes|
  {
    if changes != [] {
      WalletsFollowChanges(UpdateMany(wallets, changes[0].id, changes[0].newPhone), changes[1..], i);
      assert changes == [changes[0]] + changes[1..];
      assert forall c :: c in changes[1..] ==> c.id != changes[0].id;
    }
  }

  /** Each wallet of a user whose number changes gets the new number; every other wallet stays as it is. */
  lemma WalletsFollowUsers(rows: seq<Row>, canon: Canonicalizer, wallets: seq<Wallet>, i: nat)
    requires Table(rows) && i < |wallets|
    ensures var after := UpdateWallets(wallets, Scan(rows, canon).updates)[i];
            && (forall row :: row in rows && row.id == wallets[i].userId && Classify(rows, canon, row) == Updated ==>
                  after == wallets[i].(phone := Some(ChangeOf(row, canon).newPhone)))
            && ((forall row :: row in rows && row.id == wallets[i].userId ==> Classify(rows, canon, row) != Updated) ==> after == wallets[i])
  {
    var updates := Scan(rows, canon).updates;
    ScanIsByKey(rows, canon);
    ScanGroups(rows, canon);
    UpdatesDistinct(rows, canon, KeysInOrder(rows, canon));
    hide Scan, GroupsAre, Classify, KeysInOrder, UpdatesAmong, UpdateWallets, DistinctIds;
    WalletsFollowChanges(wallets, updates, i);
    forall row | row in rows && row.id == wallets[i].userId && Classify(rows, canon, row) == Updated
      ensures ChangeOf(row, canon) in updates
    {
      ProposesExactly(rows, canon, ChangeOf(row, canon));
    }
    forall c | c in updates
      ensures exists row :: row in rows && row.id == c.id && Classify(rows, canon, row) == Updated
    {
      ProposesExactly(rows, canon, c);
    }
  }

  // ----- The script as it runs

  class PhoneRows {
    var rows: seq<Row>
    var wallets: seq<Wallet>  // of the users; none when the rows are contacts

    constructor (rows: seq<Row>, wallets: seq<Wallet>)
      ensures this.rows == rows && this.wallets == wallets
    {
      this.rows, this.wallets := rows, wallets;
    }

    /** The two loops: group the rows, then judge each group. */
    method ScanAll(canon: Canonicalizer) returns (report: Report)
      ensures report == Scan(rows, canon)
    {
      report := EMPTY;
      for n := 0 to |rows|
        invariant report == ScanRows(rows[..n], canon)
      {
        assert rows[..n + 1][..n] == rows[..n];
        report := ScanRow(report, rows[n], canon);
      }
      assert rows[..|rows|] == rows;
      var groups := report.groups;
      for n := 0 to |groups|
        invariant JudgeGroups(report, groups[n..]) == Scan(rows, canon)
      {
        assert groups[n..][1..] == groups[n + 1..];
        report := JudgeGroup(report, groups[n]);
      }
    }

    /** The updates are applied one row at a time, each with the wallets of its user; none of them ever fails. */
    method RunPhoneCanonicalization(canon: Canonicalizer, apply: bool) returns (report: Report, updatedCount: nat)
      requires Table(rows) && Canonicalizes(canon)
      modifies this
      ensures report == Scan(old(rows), canon)
      ensures rows == if apply then Settled(old(rows), canon) else old(rows)
      ensures wallets == if apply then UpdateWallets(old(wallets), report.updates) else old(wallets)
      ensures updatedCount == if apply then |report.updates| else 0
    {
      report := ScanAll(canon);
      updatedCount := 0;
      if apply {
        ghost var rows0, wallets0 := rows, wallets;
        UpdatesGoThrough(rows0, canon);
        for k := 0 to |report.updates|
          invariant ApplyAll(rows, report.updates[k..]) == Some(Settled(rows0, canon))
          invariant UpdateWallets(wallets, report.updates[k..]) == UpdateWallets(wallets0, report.updates)
          invariant updatedCount == k
        {
          assert report.updates[k..][1..] == report.updates[k + 1..];
          var next := UpdateRow(rows, report.updates[k].id, report.updates[k].newPhone);
          rows := next.value;
          wallets := UpdateMany(wallets, report.updates[k].id, report.updates[k].newPhone);
          updatedCount := updatedCount + 1;
        }
      }
    }
  }
}
