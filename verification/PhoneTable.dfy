/**
 Phone numbers and tables with a unique phone column.

 PhoneNumbers is `canonicalizePhoneNumber` of apps/api/src/utils/validators.js over an
 abstract number parser. PhoneTable is a database table whose phone is unique within a
 scope: `User.phoneNumber` (one scope) and `Contact` (`@@unique([ownerId, phoneNumber])`) of
 apps/api/prisma/schema.prisma. An update that breaks uniqueness or misses its row fails.
 */
module PhoneNumbers {
  import opened Prelude

  /** `parsePhoneNumberWithError` followed by `isValid`: the E.164 form of a valid number. */
  type Parser = string -> Option<string>

  /** Maps a number to its canonical form; None is the thrown error. */
  type Canonicalizer = string -> Option<string>

  predicate Blank(c: char) {
    c == ' ' || c == '\t' || c == '\n' || c == '\r'
  }

  function Trim(s: string): string {
    if s != "" && Blank(s[0]) then Trim(s[1..])
    else if s != "" && Blank(s[|s| - 1]) then Trim(s[..|s| - 1])
    else s
  }

  function CanonicalizePhoneNumber(parse: Parser, phone: string): Option<string> {
    var raw := Trim(phone);
    if raw == "" then None
    else if parse(raw).Some? then parse(raw)
    else if raw[0] != '+' then parse("+" + raw)
    else None
  }

  /** The parser gives E.164 text, which it reads back as itself. */
  ghost predicate GivesE164(parse: Parser) {
    forall s :: parse(s).Some? ==>
      var n := parse(s).value;
      n != "" && n[0] == '+' && !Blank(n[|n| - 1]) && parse(n) == Some(n)
  }

  /** A canonical number is not empty and is its own canonical form. */
  ghost predicate Canonicalizes(canon: Canonicalizer) {
    forall s :: canon(s).Some? ==> canon(s).value != "" && canon(canon(s).value) == canon(s)
  }

  lemma CanonicalIsFixed(parse: Parser, phone: string)
    requires GivesE164(parse) && CanonicalizePhoneNumber(parse, phone).Some?
    ensures var n := CanonicalizePhoneNumber(parse, phone).value; n != "" && CanonicalizePhoneNumber(parse, n) == Some(n)
  {
    var n := CanonicalizePhoneNumber(parse, phone).value;
    assert Trim(n) == n;
  }

  ghost predicate AllBlank(s: string) {
    forall i :: 0 <= i < |s| ==> s[i] in {' ', '\t', '\n', '\r'}
  }

  lemma {:induction false} TrimIsExact(before: string, core: string, after: string)
    requires AllBlank(before) && AllBlank(after)
    requires core != "" ==> !AllBlank([core[0]]) && !AllBlank([core[|core| - 1]])
    ensures Trim(before + core + after) == core
    decreases |before| + |after|
  {
    var s := before + core + after;
    if before != "" {
      assert s[0] == before[0] && s[1..] == before[1..] + core + after;
      TrimIsExact(before[1..], core, after);
    } else if after != "" {
      var n := |after| - 1;
      if core == "" {
        assert s == after && s[1..] == "" + core + after[1..];
        TrimIsExact("", core, after[1..]);
      } else {
        assert s[0] == core[0] && [core[0]][0] == s[0];
        assert s[|s| - 1] == after[n] && s[..|s| - 1] == "" + core + after[..n];
        TrimIsExact("", core, after[..n]);
      }
    } else {
      assert s == core;
      if core != "" {
        assert [core[0]][0] == core[0] && [core[|core| - 1]][0] == core[|core| - 1];
      }
    }
  }

  /**
   Blanks around a number do not count, nothing else is refused unread, and a number that the
   parser does not accept is tried once more with a leading plus sign, unless it has one.
   */
  lemma ValidatorIsExact(parse: Parser, before: string, core: string, after: string)
    requires AllBlank(before) && AllBlank(after)
    requires core != "" ==> !AllBlank([core[0]]) && !AllBlank([core[|core| - 1]])
    ensures CanonicalizePhoneNumber(parse, before + core + after)
         == if core == "" then None
            else if parse(core).Some? then parse(core)
            else if "+" <= core then None
            else parse("+" + core)
  {
    TrimIsExact(before, core, after);
  }

  /** `canonicalizePhoneNumber` meets what the migrations need of it. */
  lemma ValidatorCanonicalizes(parse: Parser)
    requires GivesE164(parse)
    ensures Canonicalizes(phone => CanonicalizePhoneNumber(parse, phone))
  {
    forall phone | CanonicalizePhoneNumber(parse, phone).Some?
      ensures var n := CanonicalizePhoneNumber(parse, phone).value; n != "" && CanonicalizePhoneNumber(parse, n) == Some(n)
    {
      CanonicalIsFixed(parse, phone);
    }
  }
}

module PhoneTable {
  import opened PhoneNumbers
  import opened Prelude

  datatype Row = Row(id: string, scope: string, phone: string)

  datatype Change = Change(id: string, oldPhone: string, newPhone: string)

  ghost predicate UniqueIds(rows: seq<Row>) {
    forall i, j :: 0 <= i < j < |rows| ==> rows[i].id != rows[j].id
  }

  ghost predicate UniquePhones(rows: seq<Row>) {
    forall i, j :: 0 <= i < j < |rows| ==> rows[i].scope != rows[j].scope || rows[i].phone != rows[j].phone
  }

  ghost predicate Table(rows: seq<Row>) {
    UniqueIds(rows) && UniquePhones(rows)
  }

  /** The index of the row with this id, or the number of rows. */
  function Find(rows: seq<Row>, id: string): (i: nat)
    ensures i <= |rows| && (i < |rows| ==> rows[i].id == id) && forall j :: 0 <= j < i ==> rows[j].id != id
  {
    if rows == [] || rows[0].id == id then 0 else 1 + Find(rows[1..], id)
  }

  predicate Taken(rows: seq<Row>, i: nat, phone: string)
    requires i < |rows|
  {
    exists j :: 0 <= j < |rows| && j != i && rows[j].scope == rows[i].scope && rows[j].phone == phone
  }

  /** `update({ where: { id }, data: { phoneNumber } })`. */
  function UpdateRow(rows: seq<Row>, id: string, phone: string): Option<seq<Row>> {
    var i := Find(rows, id);
    if i == |rows| || Taken(rows, i, phone) then None
    else Some(rows[i := rows[i].(phone := phone)])
  }

  /** The updates one by one; None as soon as one of them fails. */
  function ApplyAll(rows: seq<Row>, changes: seq<Change>): Option<seq<Row>>
    decreases |changes|
  {
    if changes == [] then Some(rows)
    else
      var next :- UpdateRow(rows, changes[0].id, changes[0].newPhone);
      ApplyAll(next, changes[1..])
  }

  lemma UpdateKeepsTable(rows: seq<Row>, id: string, phone: string)
    requires Table(rows) && UpdateRow(rows, id, phone).Some?
    ensures Table(UpdateRow(rows, id, phone).value)
  {
  }

  /** A list of updates that goes through keeps ids and phones unique after every single one of them. */
  lemma {:induction false} EveryStepIsATable(rows: seq<Row>, changes: seq<Change>, k: nat)
    requires Table(rows) && ApplyAll(rows, changes).Some? && k <= |changes|
    ensures ApplyAll(rows, changes[..k]).Some? && Table(ApplyAll(rows, changes[..k]).value)
    decreases k
  {
    if k > 0 {
      UpdateKeepsTable(rows, changes[0].id, changes[0].newPhone);
      var next := UpdateRow(rows, changes[0].id, changes[0].newPhone).value;
      EveryStepIsATable(next, changes[1..], k - 1);
      assert changes[..k][1..] == changes[1..][..k - 1];
    }
  }

  // ----- Rows that may move to their canonical number

  /** No other row of the scope has the same canonical number. */
  ghost predicate Movable(base: seq<Row>, canon: Canonicalizer, i: nat)
    requires i < |base|
  {
    && canon(base[i].phone).Some?
    && forall j :: 0 <= j < |base| && j != i && base[j].scope == base[i].scope ==> canon(base[j].phone) != canon(base[i].phone)
  }

  /** The phone is the original one, or the canonical one of a row that may move. */
  ghost predicate Allowed(base: seq<Row>, canon: Canonicalizer, i: nat, phone: string)
    requires i < |base|
  {
    phone == base[i].phone || (Movable(base, canon, i) && canon(base[i].phone) == Some(phone))
  }

  /** Any mixture of original and moved rows. */
  ghost predicate Mixture(base: seq<Row>, canon: Canonicalizer, rows: seq<Row>) {
    && |rows| == |base|
    && forall i :: 0 <= i < |rows| ==> rows[i] == base[i].(phone := rows[i].phone) && Allowed(base, canon, i, rows[i].phone)
  }

  /** Every mixture, and every single move, keeps the phone column unique. */
  lemma MovesNeverClash(base: seq<Row>, canon: Canonicalizer, rows: seq<Row>, i: nat, phone: string)
    requires Table(base) && Canonicalizes(canon) && Mixture(base, canon, rows)
    requires i < |base| && Allowed(base, canon, i, phone)
    ensures !Taken(rows, i, phone)
  {
    forall j | 0 <= j < |rows| && j != i && rows[j].scope == rows[i].scope
      ensures rows[j].phone != phone
    {
      assert Allowed(base, canon, j, rows[j].phone);
      assert base[j].scope == base[i].scope && base[j].phone != base[i].phone;
      assert Movable(base, canon, i) ==> canon(base[j].phone) != canon(base[i].phone);
      assert Movable(base, canon, j) ==> canon(base[i].phone) != canon(base[j].phone);
    }
  }

  lemma FindIn(base: seq<Row>, canon: Canonicalizer, rows: seq<Row>, i: nat)
    requires Table(base) && Mixture(base, canon, rows) && i < |base|
    ensures Find(rows, base[i].id) == i
  {
    var k := Find(rows, base[i].id);
    assert rows[i].id == base[i].id;
    assert k <= i;
    assert rows[k].id == base[k].id;
  }

  /** A change moves some row of the table to its canonical number, or back. */
  ghost predicate Legal(base: seq<Row>, canon: Canonicalizer, c: Change) {
    exists i :: 0 <= i < |base| && base[i].id == c.id && Allowed(base, canon, i, c.newPhone)
  }

  lemma StepSucceeds(base: seq<Row>, canon: Canonicalizer, rows: seq<Row>, c: Change) returns (i: nat)
    requires Table(base) && Canonicalizes(canon) && Mixture(base, canon, rows) && Legal(base, canon, c)
    ensures i < |base| && base[i].id == c.id
    ensures UpdateRow(rows, c.id, c.newPhone) == Some(rows[i := rows[i].(phone := c.newPhone)])
    ensures Mixture(base, canon, rows[i := rows[i].(phone := c.newPhone)])
  {
    i :| 0 <= i < |base| && base[i].id == c.id && Allowed(base, canon, i, c.newPhone);
    FindIn(base, canon, rows, i);
    MovesNeverClash(base, canon, rows, i, c.newPhone);
    var next := rows[i := rows[i].(phone := c.newPhone)];
    forall j | 0 <= j < |next|
      ensures next[j] == base[j].(phone := next[j].phone) && Allowed(base, canon, j, next[j].phone)
    {
      assert rows[j] == base[j].(phone := rows[j].phone) && Allowed(base, canon, j, rows[j].phone);
    }
  }

  ghost predicate DistinctIds(changes: seq<Change>) {
    forall i, j :: 0 <= i < j < |changes| ==> changes[i].id != changes[j].id
  }

  /** The rows after the changes: a row named by a change has that change's number, the others are as before. */
  ghost predicate ChangedBy(before: seq<Row>, changes: seq<Change>, after: seq<Row>) {
    && |after| == |before|
    && forall i :: 0 <= i < |before| ==>
         && after[i] == before[i].(phone := after[i].phone)
         && (forall k :: 0 <= k < |changes| && changes[k].id == before[i].id ==> after[i].phone == changes[k].newPhone)
         && ((forall k :: 0 <= k < |changes| ==> changes[k].id != before[i].id) ==> after[i] == before[i])
  }

  /** Legal changes of distinct rows all succeed one by one, in any order and from any mixture. */
  lemma {:induction false} AllSucceed(base: seq<Row>, canon: Canonicalizer, rows: seq<Row>, changes: seq<Change>) returns (after: seq<Row>)
    requires Table(base) && Canonicalizes(canon) && Mixture(base, canon, rows)
    requires DistinctIds(changes) && forall c :: c in changes ==> Legal(base, canon, c)
    ensures ApplyAll(rows, changes) == Some(after) && Mixture(base, canon, after) && ChangedBy(rows, changes, after)
    decreases |changes|
  {
    if changes == [] {
      after := rows;
    } else {
      assert changes[0] in changes;
      var i := StepSucceeds(base, canon, rows, changes[0]);
      var next := rows[i := rows[i].(phone := changes[0].newPhone)];
      var rest := changes[1..];
      assert forall c :: c in rest ==> c in changes;
      after := AllSucceed(base, canon, next, rest);
      assert forall k :: 0 <= k < |rest| ==> rest[k] == changes[k + 1];
      forall j | 0 <= j < |rows|
        ensures after[j] == rows[j].(phone := after[j].phone)
        ensures forall k :: 0 <= k < |changes| && changes[k].id == rows[j].id ==> after[j].phone == changes[k].newPhone
        ensures (forall k :: 0 <= k < |changes| ==> changes[k].id != rows[j].id) ==> after[j] == rows[j]
      {
        assert rows[j] == base[j].(phone := rows[j].phone);
        assert next[j].id == rows[j].id;
        if j == i {
          forall k | 0 <= k < |rest|
            ensures rest[k].id != next[j].id
          {
            assert changes[k + 1].id != changes[0].id;
          }
          forall k | 0 <= k < |changes| && changes[k].id == rows[j].id
            ensures after[j].phone == changes[k].newPhone
          {
            assert k == 0;
          }
        } else {
          assert rows[i] == base[i].(phone := rows[i].phone);
          assert changes[0].id != rows[j].id;
          forall k | 0 <= k < |changes| && changes[k].id == rows[j].id
            ensures after[j].phone == changes[k].newPhone
          {
            assert changes[k] == rest[k - 1];
          }
          if forall k :: 0 <= k < |changes| ==> changes[k].id != rows[j].id {
            assert forall k :: 0 <= k < |rest| ==> rest[k].id != next[j].id;
          }
        }
      }
    }
  }

  lemma BaseIsMixture(base: seq<Row>, canon: Canonicalizer)
    ensures Mixture(base, canon, base)
  {
  }
}
