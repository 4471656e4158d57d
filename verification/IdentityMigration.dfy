/**
 The customer identity migration and its rollback, apps/api/scripts/migrate-customer-identities.js.

 A scan proposes the canonical number for every user, reports collisions and keeps a snapshot
 of what it would change. Without collisions the proposals are applied one row at a time in
 a transaction; a rollback writes a snapshot back, again row by row.
 */
module IdentityMigration {
  import opened PhoneNumbers
  import opened PhoneTable
  import opened Prelude

  datatype Wallet = Wallet(id: string, userId: string, phone: Option<string>)

  datatype WalletChange = WalletChange(id: string, oldPhone: Option<string>, newPhone: Option<string>)

  datatype Collision =
    | InvalidFormat(userId: string, rawPhone: string)
    | DuplicateIdentity(userId: string, existingUserId: string, canonicalPhone: string)

  datatype Report = Report(
    phoneMap: map<string, string>,
    collisions: seq<Collision>,
    validUsers: nat,
    updates: seq<Change>,
    walletUpdates: seq<WalletChange>,
    snapshot: Snapshot)

  /** The numbers to write back, by row id. */
  datatype Snapshot = Snapshot(users: seq<Change>, wallets: seq<WalletChange>)

  const EMPTY := Report(map[], [], 0, [], [], Snapshot([], []))

  // ----- The scan

  function WalletChangesFor(wallets: seq<Wallet>, userId: string, canonical: string): seq<WalletChange> {
    if wallets == [] then []
    else
      (if wallets[0].userId == userId && wallets[0].phone != Some(canonical)
       then [WalletChange(wallets[0].id, wallets[0].phone, Some(canonical))] else [])
      + WalletChangesFor(wallets[1..], userId, canonical)
  }

  /** Undoing a change: the old number is written back. */
  function Undo(changes: seq<WalletChange>): seq<WalletChange> {
    seq(|changes|, i requires 0 <= i < |changes| => WalletChange(changes[i].id, changes[i].newPhone, changes[i].oldPhone))
  }

  function ScanUser(report: Report, user: Row, wallets: seq<Wallet>, canon: Canonicalizer): Report {
    var canonical := canon(user.phone);
    if canonical.None? || canonical.value == "" then
      report.(collisions := report.collisions + [InvalidFormat(user.id, user.phone)])
    else if canonical.value in report.phoneMap then
      report.(collisions := report.collisions + [DuplicateIdentity(user.id, report.phoneMap[canonical.value], canonical.value)])
    else
      var next := report.(phoneMap := report.phoneMap[canonical.value := user.id]);
      if user.phone == canonical.value then next.(validUsers := next.validUsers + 1)
      else
        var forWallets := WalletChangesFor(wallets, user.id, canonical.value);
        next.(updates := next.updates + [Change(user.id, user.phone, canonical.value)],
              walletUpdates := next.walletUpdates + forWallets,
              snapshot := Snapshot(next.snapshot.users + [Change(user.id, canonical.value, user.phone)],
                                   next.snapshot.wallets + Undo(forWallets)))
  }

  function Scan(users: seq<Row>, wallets: seq<Wallet>, canon: Canonicalizer): Report {
    if users == [] then EMPTY
    else ScanUser(Scan(users[..|users| - 1], wallets, canon), users[|users| - 1], wallets, canon)
  }

  // ----- What the migration is for

  /** Every number is valid and no two users share a canonical number. */
  ghost predicate NoCollision(users: seq<Row>, canon: Canonicalizer) {
    && (forall i :: 0 <= i < |users| ==> canon(users[i].phone).Some?)
    && (forall i, j :: 0 <= i < j < |users| ==> canon(users[i].phone) != canon(users[j].phone))
  }

  function MigratedUser(user: Row, canon: Canonicalizer): Row {
    if canon(user.phone).Some? then user.(phone := canon(user.phone).value) else user
  }

  function MigratedUsers(users: seq<Row>, canon: Canonicalizer): seq<Row> {
    seq(|users|, i requires 0 <= i < |users| => MigratedUser(users[i], canon))
  }

  /** The wallets of a user whose number changes get the new number; all others stay. */
  function MigratedWallet(wallet: Wallet, users: seq<Row>, canon: Canonicalizer): Wallet {
    var i := Find(users, wallet.userId);
    if i < |users| && canon(users[i].phone).Some? && canon(users[i].phone).value != users[i].phone
    then wallet.(phone := canon(users[i].phone))
    else wallet
  }

  function MigratedWallets(wallets: seq<Wallet>, users: seq<Row>, canon: Canonicalizer): seq<Wallet> {
    seq(|wallets|, i requires 0 <= i < |wallets| => MigratedWallet(wallets[i], users, canon))
  }

  ghost predicate Users(users: seq<Row>) {
    Table(users) && forall i :: 0 <= i < |users| ==> users[i].scope == ""
  }

  ghost predicate Wallets(wallets: seq<Wallet>) {
    forall i, j :: 0 <= i < j < |wallets| ==> wallets[i].id != wallets[j].id
  }

  // ----- The scan reports exactly the collisions

  /** Some user has this canonical number. */
  ghost predicate Claimed(users: seq<Row>, canon: Canonicalizer, p: string) {
    exists i :: 0 <= i < |users| && canon(users[i].phone) == Some(p)
  }

  lemma ClaimedNext(users: seq<Row>, canon: Canonicalizer, p: string)
    requires users != []
    ensures Claimed(users, canon, p) <==> Claimed(users[..|users| - 1], canon, p) || canon(users[|users| - 1].phone) == Some(p)
  {
    var before := users[..|users| - 1];
    if Claimed(before, canon, p) {
      var i :| 0 <= i < |before| && canon(before[i].phone) == Some(p);
      assert canon(users[i].phone) == Some(p);
    }
    if Claimed(users, canon, p) {
      var i :| 0 <= i < |users| && canon(users[i].phone) == Some(p);
      assert i < |before| ==> before[i] == users[i];
    }
  }

  lemma NoCollisionNext(users: seq<Row>, canon: Canonicalizer)
    requires users != []
    ensures var canonical := canon(users[|users| - 1].phone);
            NoCollision(users, canon)
            <==> NoCollision(users[..|users| - 1], canon) && canonical.Some? && !Claimed(users[..|users| - 1], canon, canonical.value)
  {
    var n := |users| - 1;
    var before := users[..n];
    assert forall i :: 0 <= i < n ==> before[i] == users[i];
    if NoCollision(before, canon) && canon(users[n].phone).Some? && !Claimed(before, canon, canon(users[n].phone).value) {
      forall i, j | 0 <= i < j < |users|
        ensures canon(users[i].phone) != canon(users[j].phone)
      {
        assert before[i] == users[i];
      }
    }
  }

  lemma {:induction false} ScanKnows(users: seq<Row>, wallets: seq<Wallet>, canon: Canonicalizer)
    requires Canonicalizes(canon)
    ensures forall p :: p in Scan(users, wallets, canon).phoneMap <==> Claimed(users, canon, p)
  {
    if users != [] {
      ScanKnows(users[..|users| - 1], wallets, canon);
      forall p
        ensures p in Scan(users, wallets, canon).phoneMap <==> Claimed(users, canon, p)
      {
        ClaimedNext(users, canon, p);
      }
    }
  }

  /** The collision list is empty exactly when every number is valid and no two users share a canonical one. */
  lemma {:induction false} ScanReportsCollisions(users: seq<Row>, wallets: seq<Wallet>, canon: Canonicalizer)
    requires Canonicalizes(canon)
    ensures Scan(users, wallets, canon).collisions == [] <==> NoCollision(users, canon)
  {
    if users != [] {
      ScanReportsCollisions(users[..|users| - 1], wallets, canon);
      ScanKnows(users[..|users| - 1], wallets, canon);
      NoCollisionNext(users, canon);
    }
  }

  /** Every user is counted once: canonical already, to be updated, or in a collision. */
  lemma {:induction false} ScanCountsAll(users: seq<Row>, wallets: seq<Wallet>, canon: Canonicalizer)
    ensures var report := Scan(users, wallets, canon);
            |users| == report.validUsers + |report.updates| + |report.collisions| && |report.snapshot.users| == |report.updates|
  {
    if users != [] {
      ScanCountsAll(users[..|users| - 1], wallets, canon);
    }
  }

  lemma ScanUserKnows(report: Report, user: Row, wallets: seq<Wallet>, canon: Canonicalizer, p: string)
    ensures var next := ScanUser(report, user, wallets, canon);
            && (p in report.phoneMap ==> p in next.phoneMap && next.phoneMap[p] == report.phoneMap[p])
            && (p !in report.phoneMap && canon(user.phone) == Some(p) && p != "" ==> p in next.phoneMap && next.phoneMap[p] == user.id)
  {
  }

  /** The map holds the first user of each canonical number. */
  lemma {:induction false} ScanKnowsFirst(users: seq<Row>, wallets: seq<Wallet>, canon: Canonicalizer, i: nat)
    requires Canonicalizes(canon) && i < |users| && canon(users[i].phone).Some? && !Claimed(users[..i], canon, canon(users[i].phone).value)
    ensures var p := canon(users[i].phone).value;
            p in Scan(users, wallets, canon).phoneMap && Scan(users, wallets, canon).phoneMap[p] == users[i].id
  {
    hide ScanUser, Claimed;
    var n := |users| - 1;
    var p := canon(users[i].phone).value;
    ScanUserKnows(Scan(users[..n], wallets, canon), users[n], wallets, canon, p);
    if i < n {
      assert users[..n][..i] == users[..i] && users[..n][i] == users[i];
      ScanKnowsFirst(users[..n], wallets, canon, i);
    } else {
      ScanKnows(users[..n], wallets, canon);
      assert p != "";
    }
  }

  /**
   What the scan reports of one more user: an invalid number, or the first user with the same
   canonical number, behind the collisions reported before; otherwise nothing.
   */
  lemma CollisionsInOrder(users: seq<Row>, wallets: seq<Wallet>, canon: Canonicalizer, n: nat)
    requires Canonicalizes(canon) && n < |users|
    ensures var (before, after) := (Scan(users[..n], wallets, canon).collisions, Scan(users[..n + 1], wallets, canon).collisions);
            && (canon(users[n].phone).None? ==> after == before + [InvalidFormat(users[n].id, users[n].phone)])
            && (forall i :: 0 <= i < n && canon(users[n].phone).Some? && canon(users[i].phone) == canon(users[n].phone)
                            && (forall j :: 0 <= j < i ==> canon(users[j].phone) != canon(users[n].phone)) ==>
                  after == before + [DuplicateIdentity(users[n].id, users[i].id, canon(users[n].phone).value)])
            && (canon(users[n].phone).Some? && (forall j :: 0 <= j < n ==> canon(users[j].phone) != canon(users[n].phone)) ==> after == before)
  {
    var init := users[..n];
    assert users[..n + 1][..n] == init && users[..n + 1][n] == users[n];
    assert forall j :: 0 <= j < n ==> init[j] == users[j];
    ScanKnows(init, wallets, canon);
    forall i | 0 <= i < n && canon(users[n].phone).Some? && canon(users[i].phone) == canon(users[n].phone)
               && (forall j :: 0 <= j < i ==> canon(users[j].phone) != canon(users[n].phone))
      ensures canon(users[n].phone).value in Scan(init, wallets, canon).phoneMap
      ensures Scan(init, wallets, canon).phoneMap[canon(users[n].phone).value] == users[i].id
    {
      assert init[..i] == users[..i];
      ScanKnowsFirst(init, wallets, canon, i);
    }
  }

  lemma AllMovable(users: seq<Row>, canon: Canonicalizer, i: nat)
    requires NoCollision(users, canon) && i < |users|
    ensures Movable(users, canon, i)
  {
  }

  // ----- The proposed changes

  /** The proposals cover exactly the users whose number changes, once each, and the snapshot mirrors them. */
  ghost predicate Covers(users: seq<Row>, canon: Canonicalizer, n: nat, updates: seq<Change>, undo: seq<Change>)
    requires n <= |users|
  {
    && |undo| == |updates|
    && (forall k :: 0 <= k < |updates| ==> undo[k] == Change(updates[k].id, updates[k].newPhone, updates[k].oldPhone))
    && (forall k :: 0 <= k < |updates| ==> Proposal(users, canon, n, updates[k]))
    && (forall i :: 0 <= i < n && canon(users[i].phone) != Some(users[i].phone) ==> ProposalFor(users[i], canon) in updates)
    && DistinctIds(updates)
  }

  function ProposalFor(user: Row, canon: Canonicalizer): Change {
    Change(user.id, user.phone, MigratedUser(user, canon).phone)
  }

  ghost predicate Proposal(users: seq<Row>, canon: Canonicalizer, n: nat, c: Change)
    requires n <= |users|
  {
    exists i :: 0 <= i < n && canon(users[i].phone) != Some(users[i].phone) && c == ProposalFor(users[i], canon)
  }

  /** Without collisions the scan of user `n` proposes a change exactly when the number is not canonical. */
  lemma ScanNext(users: seq<Row>, wallets: seq<Wallet>, canon: Canonicalizer, n: nat)
    requires Canonicalizes(canon) && NoCollision(users, canon) && n < |users|
    ensures canon(users[n].phone).Some?
    ensures var c := ProposalFor(users[n], canon);
            var before, after := Scan(users[..n], wallets, canon), Scan(users[..n + 1], wallets, canon);
            if users[n].phone == c.newPhone then after.updates == before.updates && after.snapshot == before.snapshot
            else && after.updates == before.updates + [c]
                 && after.snapshot.users == before.snapshot.users + [Change(c.id, c.newPhone, c.oldPhone)]
  {
    var init := users[..n];
    assert users[..n + 1][..n] == init && users[..n + 1][n] == users[n];
    ScanKnows(init, wallets, canon);
    assert forall i :: 0 <= i < n ==> init[i] == users[i];
  }

  lemma {:induction false} ScanCovers(users: seq<Row>, wallets: seq<Wallet>, canon: Canonicalizer, n: nat)
    requires Users(users) && Canonicalizes(canon) && NoCollision(users, canon) && n <= |users|
    ensures var report := Scan(users[..n], wallets, canon);
            Covers(users, canon, n, report.updates, report.snapshot.users)
  {
    if n > 0 {
      hide Users, NoCollision, Canonicalizes, Scan, Covers;
      ScanCovers(users, wallets, canon, n - 1);
      var report := Scan(users[..n - 1], wallets, canon);
      ScanNext(users, wallets, canon, n - 1);
      CoversNext(users, canon, n - 1, report.updates, report.snapshot.users);
    }
  }

  lemma CoversNext(users: seq<Row>, canon: Canonicalizer, n: nat, updates: seq<Change>, undo: seq<Change>)
    requires Users(users) && n < |users| && canon(users[n].phone).Some? && Covers(users, canon, n, updates, undo)
    ensures var c := ProposalFor(users[n], canon);
            if users[n].phone == canon(users[n].phone).value then Covers(users, canon, n + 1, updates, undo)
            else Covers(users, canon, n + 1, updates + [c], undo + [Change(c.id, c.newPhone, c.oldPhone)])
  {
    var c := ProposalFor(users[n], canon);
    forall k | 0 <= k < |updates|
      ensures Proposal(users, canon, n + 1, updates[k]) && updates[k].id != c.id
    {
      assert Proposal(users, canon, n, updates[k]);
    }
    if users[n].phone != canon(users[n].phone).value {
      assert Proposal(users, canon, n + 1, c);
      assert (updates + [c])[|updates|] == c;
    }
  }

  // ----- Users: apply, then roll back

  lemma UpdatesAreLegal(users: seq<Row>, canon: Canonicalizer, updates: seq<Change>, undo: seq<Change>)
    requires Users(users) && NoCollision(users, canon) && Covers(users, canon, |users|, updates, undo)
    ensures forall c :: c in updates ==> Legal(users, canon, c)
  {
    forall k | 0 <= k < |updates|
      ensures Legal(users, canon, updates[k])
    {
      assert Proposal(users, canon, |users|, updates[k]);
      var i :| 0 <= i < |users| && canon(users[i].phone) != Some(users[i].phone) && updates[k] == ProposalFor(users[i], canon);
      AllMovable(users, canon, i);
    }
  }

  lemma UpdatesMigrate(users: seq<Row>, canon: Canonicalizer, updates: seq<Change>, undo: seq<Change>, after: seq<Row>)
    requires Users(users) && NoCollision(users, canon) && Covers(users, canon, |users|, updates, undo)
    requires ChangedBy(users, updates, after)
    ensures after == MigratedUsers(users, canon)
  {
    forall i | 0 <= i < |users|
      ensures after[i] == MigratedUser(users[i], canon)
    {
      UserMigrates(users, canon, updates, undo, after, i);
    }
  }

  lemma UserMigrates(users: seq<Row>, canon: Canonicalizer, updates: seq<Change>, undo: seq<Change>, after: seq<Row>, i: nat)
    requires Users(users) && NoCollision(users, canon) && Covers(users, canon, |users|, updates, undo)
    requires ChangedBy(users, updates, after) && i < |users|
    ensures after[i] == MigratedUser(users[i], canon)
  {
    assert after[i] == users[i].(phone := after[i].phone);
    if canon(users[i].phone) != Some(users[i].phone) {
      var k :| 0 <= k < |updates| && updates[k] == ProposalFor(users[i], canon);
      hide Covers, Users, NoCollision;
    } else {
      forall k | 0 <= k < |updates|
        ensures updates[k].id != users[i].id
      {
        assert Proposal(users, canon, |users|, updates[k]);
      }
      hide Covers, Users;
    }
  }

  /** Without collisions every single update keeps the phone column unique, and all users end canonical. */
  lemma UsersMigrate(users: seq<Row>, wallets: seq<Wallet>, canon: Canonicalizer)
    requires Users(users) && Canonicalizes(canon) && NoCollision(users, canon)
    ensures ApplyAll(users, Scan(users, wallets, canon).updates) == Some(MigratedUsers(users, canon))
    ensures Mixture(users, canon, MigratedUsers(users, canon))
  {
    var report := Scan(users, wallets, canon);
    assert users[..|users|] == users;
    ScanCovers(users, wallets, canon, |users|);
    BaseIsMixture(users, canon);
    assert DistinctIds(report.updates);
    hide Scan, Covers, NoCollision, Mixture, ChangedBy, MigratedUsers, Canonicalizes;
    UpdatesAreLegal(users, canon, report.updates, report.snapshot.users);
    var after := AllSucceed(users, canon, users, report.updates);
    UpdatesMigrate(users, canon, report.updates, report.snapshot.users, after);
  }

  lemma UndoIsLegal(users: seq<Row>, canon: Canonicalizer, updates: seq<Change>, undo: seq<Change>)
    requires Users(users) && Covers(users, canon, |users|, updates, undo)
    ensures DistinctIds(undo) && forall c :: c in undo ==> Legal(users, canon, c)
  {
    forall k | 0 <= k < |undo|
      ensures Legal(users, canon, undo[k])
    {
      assert Proposal(users, canon, |users|, updates[k]);
    }
  }

  lemma UndoRestores(users: seq<Row>, canon: Canonicalizer, updates: seq<Change>, undo: seq<Change>, after: seq<Row>)
    requires Users(users) && Covers(users, canon, |users|, updates, undo)
    requires ChangedBy(MigratedUsers(users, canon), undo, after)
    ensures after == users
  {
    var migrated := MigratedUsers(users, canon);
    forall i | 0 <= i < |users|
      ensures after[i] == users[i]
    {
      assert after[i] == migrated[i].(phone := after[i].phone);
      if canon(users[i].phone) != Some(users[i].phone) {
        var k :| 0 <= k < |updates| && updates[k] == ProposalFor(users[i], canon);
        assert undo[k].id == migrated[i].id;
      } else {
        forall k | 0 <= k < |undo|
          ensures undo[k].id != migrated[i].id
        {
          assert Proposal(users, canon, |users|, updates[k]);
        }
      }
    }
  }

  /** Writing the snapshot back row by row also never breaks uniqueness, and restores every number. */
  lemma UsersRollBack(users: seq<Row>, wallets: seq<Wallet>, canon: Canonicalizer)
    requires Users(users) && Canonicalizes(canon) && NoCollision(users, canon)
    ensures ApplyAll(MigratedUsers(users, canon), Scan(users, wallets, canon).snapshot.users) == Some(users)
  {
    var report := Scan(users, wallets, canon);
    assert users[..|users|] == users;
    ScanCovers(users, wallets, canon, |users|);
    hide Scan, Covers, NoCollision, Mixture, ChangedBy, MigratedUsers;
    UsersMigrate(users, wallets, canon);
    UndoIsLegal(users, canon, report.updates, report.snapshot.users);
    var after := AllSucceed(users, canon, MigratedUsers(users, canon), report.snapshot.users);
    UndoRestores(users, canon, report.updates, report.snapshot.users, after);
  }

  // ----- Wallets: apply, then roll back

  /** `wallet.update({ where: { id } })`; None if there is no such wallet. */
  function UpdateWallet(wallets: seq<Wallet>, id: string, phone: Option<string>): Option<seq<Wallet>> {
    if exists i :: 0 <= i < |wallets| && wallets[i].id == id then
      Some(seq(|wallets|, i requires 0 <= i < |wallets| => if wallets[i].id == id then wallets[i].(phone := phone) else wallets[i]))
    else None
  }

  function ApplyWallets(wallets: seq<Wallet>, changes: seq<WalletChange>): Option<seq<Wallet>>
    decreases |changes|
  {
    if changes == [] then Some(wallets)
    else
      var next :- UpdateWallet(wallets, changes[0].id, changes[0].newPhone);
      ApplyWallets(next, changes[1..])
  }

  /** The wallets agree on everything but the number. */
  ghost predicate SameWallets(a: seq<Wallet>, b: seq<Wallet>) {
    |a| == |b| && forall i :: 0 <= i < |a| ==> b[i] == a[i].(phone := b[i].phone)
  }

  /** Every change names a wallet of the table and brings it to its place in `goal`. */
  ghost predicate TowardsGoal(changes: seq<WalletChange>, goal: seq<Wallet>) {
    forall c :: c in changes ==>
      && (exists i :: 0 <= i < |goal| && goal[i].id == c.id)
      && (forall i :: 0 <= i < |goal| && goal[i].id == c.id ==> goal[i].phone == c.newPhone)
  }

  /** Wallets that no change names are at the goal already. */
  ghost predicate RestAtGoal(wallets: seq<Wallet>, changes: seq<WalletChange>, goal: seq<Wallet>)
    requires |wallets| == |goal|
  {
    forall i :: 0 <= i < |wallets| && wallets[i] != goal[i] ==> exists c :: c in changes && c.id == goal[i].id
  }

  lemma {:induction false} WalletsReachGoal(wallets: seq<Wallet>, changes: seq<WalletChange>, goal: seq<Wallet>)
    requires SameWallets(wallets, goal) && TowardsGoal(changes, goal) && RestAtGoal(wallets, changes, goal)
    ensures ApplyWallets(wallets, changes) == Some(goal)
    decreases |changes|
  {
    if changes == [] {
      assert wallets == goal;
    } else {
      var c := changes[0];
      assert c in changes;
      var k :| 0 <= k < |goal| && goal[k].id == c.id;
      assert wallets[k].id == c.id;
      var next := UpdateWallet(wallets, c.id, c.newPhone).value;
      assert forall d :: d in changes[1..] ==> d in changes;
      forall i | 0 <= i < |next| && next[i] != goal[i]
        ensures exists d :: d in changes[1..] && d.id == goal[i].id
      {
        assert goal[i] == wallets[i].(phone := goal[i].phone);
        var d :| d in changes && d.id == goal[i].id;
        assert d != c;
      }
      WalletsReachGoal(next, changes[1..], goal);
    }
  }

  /** `c` is the change the scan of user `u` makes to wallet `w`. */
  predicate ForWallet(c: WalletChange, w: Wallet, u: Row, canon: Canonicalizer) {
    && canon(u.phone).Some? && canon(u.phone).value != u.phone
    && w.userId == u.id && w.phone != canon(u.phone) && c == WalletChange(w.id, w.phone, canon(u.phone))
  }

  lemma {:induction false} ChangesForUser(wallets: seq<Wallet>, userId: string, canonical: string, c: WalletChange)
    ensures c in WalletChangesFor(wallets, userId, canonical)
            <==> exists w :: w in wallets && w.userId == userId && w.phone != Some(canonical) && c == WalletChange(w.id, w.phone, Some(canonical))
  {
    if wallets != [] {
      ChangesForUser(wallets[1..], userId, canonical, c);
      assert forall w :: w in wallets <==> w == wallets[0] || w in wallets[1..];
    }
  }

  /** The scan's wallet changes, as a set, and their reversal in the snapshot. */
  lemma {:induction false} ScanWallets(users: seq<Row>, wallets: seq<Wallet>, canon: Canonicalizer, n: nat)
    requires Canonicalizes(canon) && NoCollision(users, canon) && n <= |users|
    ensures var report := Scan(users[..n], wallets, canon);
            && report.snapshot.wallets == Undo(report.walletUpdates)
            && forall c :: c in report.walletUpdates <==> WalletProposal(users, wallets, canon, n, c)
  {
    if n > 0 {
      ScanWallets(users, wallets, canon, n - 1);
      var init := users[..n - 1];
      assert users[..n][..n - 1] == init && users[..n][n - 1] == users[n - 1];
      ScanKnows(init, wallets, canon);
      assert Scan(users[..n], wallets, canon) == ScanUser(Scan(init, wallets, canon), users[n - 1], wallets, canon);
      NotClaimedBefore(users, canon, n - 1);
      hide Scan, ScanUser, Claimed, NoCollision, WalletProposal;
      WalletsNext(users, wallets, canon, n - 1, Scan(init, wallets, canon), Scan(users[..n], wallets, canon));
    }
  }

  /** Without collisions no earlier user has the canonical number of user `n`. */
  lemma NotClaimedBefore(users: seq<Row>, canon: Canonicalizer, n: nat)
    requires NoCollision(users, canon) && n < |users|
    ensures canon(users[n].phone).Some? && !Claimed(users[..n], canon, canon(users[n].phone).value)
  {
    assert forall i :: 0 <= i < n ==> users[..n][i] == users[i];
  }

  ghost predicate WalletProposal(users: seq<Row>, wallets: seq<Wallet>, canon: Canonicalizer, n: nat, c: WalletChange)
    requires n <= |users|
  {
    exists i, w :: 0 <= i < n && w in wallets && ForWallet(c, w, users[i], canon)
  }

  lemma WalletsNext(users: seq<Row>, wallets: seq<Wallet>, canon: Canonicalizer, n: nat, before: Report, after: Report)
    requires n < |users| && canon(users[n].phone).Some? && canon(users[n].phone).value != ""
    requires canon(users[n].phone).value !in before.phoneMap && after == ScanUser(before, users[n], wallets, canon)
    requires before.snapshot.wallets == Undo(before.walletUpdates)
    requires forall c :: c in before.walletUpdates <==> WalletProposal(users, wallets, canon, n, c)
    ensures after.snapshot.wallets == Undo(after.walletUpdates)
    ensures forall c :: c in after.walletUpdates <==> WalletProposal(users, wallets, canon, n + 1, c)
  {
    var canonical := canon(users[n].phone).value;
    forall c
      ensures c in after.walletUpdates <==> WalletProposal(users, wallets, canon, n + 1, c)
    {
      ChangesForUser(wallets, users[n].id, canonical, c);
      if WalletProposal(users, wallets, canon, n + 1, c) {
        var i, w :| 0 <= i < n + 1 && w in wallets && ForWallet(c, w, users[i], canon);
        if i < n {
          assert WalletProposal(users, wallets, canon, n, c);
        }
      }
      if WalletProposal(users, wallets, canon, n, c) {
        var i, w :| 0 <= i < n && w in wallets && ForWallet(c, w, users[i], canon);
        assert ForWallet(c, w, users[i], canon);
      }
      if users[n].phone != canonical && c in WalletChangesFor(wallets, users[n].id, canonical) {
        var w :| w in wallets && w.userId == users[n].id && w.phone != Some(canonical) && c == WalletChange(w.id, w.phone, Some(canonical));
        assert ForWallet(c, w, users[n], canon);
      }
    }
  }

  lemma FindUser(users: seq<Row>, i: nat)
    requires UniqueIds(users) && i < |users|
    ensures Find(users, users[i].id) == i
  {
  }

  /** A wallet that differs from its migrated state is proposed. */
  lemma ChangedIsProposed(users: seq<Row>, wallets: seq<Wallet>, canon: Canonicalizer, j: nat)
    requires j < |wallets| && MigratedWallet(wallets[j], users, canon) != wallets[j]
    ensures WalletProposal(users, wallets, canon, |users|,
                           WalletChange(wallets[j].id, wallets[j].phone, MigratedWallet(wallets[j], users, canon).phone))
  {
    var i := Find(users, wallets[j].userId);
    assert wallets[j] in wallets;
    assert ForWallet(WalletChange(wallets[j].id, wallets[j].phone, canon(users[i].phone)), wallets[j], users[i], canon);
  }

  /** A proposed change is about some wallet that it takes to its migrated state. */
  lemma ProposedIsChanged(users: seq<Row>, wallets: seq<Wallet>, canon: Canonicalizer, c: WalletChange) returns (j: nat)
    requires UniqueIds(users) && WalletProposal(users, wallets, canon, |users|, c)
    ensures j < |wallets| && wallets[j].id == c.id && wallets[j].phone == c.oldPhone
    ensures MigratedWallet(wallets[j], users, canon).phone == c.newPhone
  {
    var i, w :| 0 <= i < |users| && w in wallets && ForWallet(c, w, users[i], canon);
    j :| 0 <= j < |wallets| && wallets[j] == w;
    FindUser(users, i);
  }

  lemma ProposalsLeadToGoal(users: seq<Row>, wallets: seq<Wallet>, canon: Canonicalizer, changes: seq<WalletChange>)
    requires UniqueIds(users) && Wallets(wallets)
    requires forall c :: c in changes <==> WalletProposal(users, wallets, canon, |users|, c)
    ensures var goal := MigratedWallets(wallets, users, canon);
            && TowardsGoal(changes, goal) && RestAtGoal(wallets, changes, goal)
            && TowardsGoal(Undo(changes), wallets) && RestAtGoal(goal, Undo(changes), wallets)
  {
    var goal, undo := MigratedWallets(wallets, users, canon), Undo(changes);
    forall c | c in changes
      ensures exists j :: 0 <= j < |wallets| && wallets[j].id == c.id
      ensures forall j :: 0 <= j < |wallets| && wallets[j].id == c.id ==> goal[j].phone == c.newPhone && wallets[j].phone == c.oldPhone
    {
      var j := ProposedIsChanged(users, wallets, canon, c);
    }
    forall j | 0 <= j < |wallets| && wallets[j] != goal[j]
      ensures exists k :: 0 <= k < |changes| && changes[k].id == wallets[j].id && undo[k].id == wallets[j].id
    {
      ChangedIsProposed(users, wallets, canon, j);
      var k :| 0 <= k < |changes| && changes[k] == WalletChange(wallets[j].id, wallets[j].phone, goal[j].phone);
      assert undo[k].id == wallets[j].id;
    }
    forall d | d in undo
      ensures WalletChange(d.id, d.newPhone, d.oldPhone) in changes
    {
      var k :| 0 <= k < |undo| && undo[k] == d;
      assert changes[k] == WalletChange(d.id, d.newPhone, d.oldPhone);
    }
  }

  /** The scan's wallet changes take the wallets to their migrated state, and undoing them takes them back. */
  lemma ProposalsMigrate(users: seq<Row>, wallets: seq<Wallet>, canon: Canonicalizer, changes: seq<WalletChange>)
    requires UniqueIds(users) && Wallets(wallets)
    requires forall c :: c in changes <==> WalletProposal(users, wallets, canon, |users|, c)
    ensures ApplyWallets(wallets, changes) == Some(MigratedWallets(wallets, users, canon))
    ensures ApplyWallets(MigratedWallets(wallets, users, canon), Undo(changes)) == Some(wallets)
  {
    var goal := MigratedWallets(wallets, users, canon);
    ProposalsLeadToGoal(users, wallets, canon, changes);
    assert SameWallets(wallets, goal) && SameWallets(goal, wallets);
    hide TowardsGoal, RestAtGoal, MigratedWallets, WalletProposal;
    WalletsReachGoal(wallets, changes, goal);
    WalletsReachGoal(goal, Undo(changes), wallets);
  }

  // ----- The main result

  /**
   Without collisions the whole migration goes through, no row update ever meets a taken number,
   and rolling its snapshot back, also without ever meeting one, restores every user and wallet.
   */
  lemma MigrationRoundTrip(users: seq<Row>, wallets: seq<Wallet>, canon: Canonicalizer)
    requires Users(users) && Wallets(wallets) && Canonicalizes(canon)
    requires Scan(users, wallets, canon).collisions == []
    ensures var report := Scan(users, wallets, canon);
            && ApplyAll(users, report.updates) == Some(MigratedUsers(users, canon))
            && ApplyWallets(wallets, report.walletUpdates) == Some(MigratedWallets(wallets, users, canon))
            && ApplyAll(MigratedUsers(users, canon), report.snapshot.users) == Some(users)
            && ApplyWallets(MigratedWallets(wallets, users, canon), report.snapshot.wallets) == Some(wallets)
  {
    ScanReportsCollisions(users, wallets, canon);
    assert users[..|users|] == users;
    ScanWallets(users, wallets, canon, |users|);
    hide Scan, NoCollision, MigratedUsers, MigratedWallets, Wallets;
    UsersMigrate(users, wallets, canon);
    UsersRollBack(users, wallets, canon);
    ProposalsMigrate(users, wallets, canon, Scan(users, wallets, canon).walletUpdates);
  }

  // ----- The scripts as they run

  class Database {
    var users: seq<Row>
    var wallets: seq<Wallet>

    constructor (users: seq<Row>, wallets: seq<Wallet>)
      ensures this.users == users && this.wallets == wallets
    {
      this.users, this.wallets := users, wallets;
    }

    /** The scan loop over all users. */
    method ScanAll(canon: Canonicalizer) returns (report: Report)
      ensures report == Scan(users, wallets, canon)
    {
      report := EMPTY;
      for n := 0 to |users|
        invariant report == Scan(users[..n], wallets, canon)
      {
        assert users[..n + 1][..n] == users[..n];
        report := ScanUser(report, users[n], wallets, canon);
      }
      assert users[..|users|] == users;
    }

    /** The body of a transaction: the updates in order; on the first failure everything is as before. */
    method Transact(changes: seq<Change>, walletChanges: seq<WalletChange>) returns (committed: bool)
      modifies this
      ensures committed <==> ApplyAll(old(users), changes).Some? && ApplyWallets(old(wallets), walletChanges).Some?
      ensures committed ==> users == ApplyAll(old(users), changes).value && wallets == ApplyWallets(old(wallets), walletChanges).value
      ensures !committed ==> users == old(users) && wallets == old(wallets)
    {
      var users0, wallets0 := users, wallets;
      for k := 0 to |changes|
        invariant ApplyAll(users, changes[k..]) == ApplyAll(users0, changes) && wallets == wallets0
      {
        assert changes[k..][1..] == changes[k + 1..];
        var next := UpdateRow(users, changes[k].id, changes[k].newPhone);
        if next.None? {
          users := users0;
          return false;
        }
        users := next.value;
      }
      for k := 0 to |walletChanges|
        invariant ApplyWallets(wallets, walletChanges[k..]) == ApplyWallets(wallets0, walletChanges)
        invariant ApplyAll(users0, changes) == Some(users)
      {
        assert walletChanges[k..][1..] == walletChanges[k + 1..];
        var next := UpdateWallet(wallets, walletChanges[k].id, walletChanges[k].newPhone);
        if next.None? {
          users, wallets := users0, wallets0;
          return false;
        }
        wallets := next.value;
      }
      committed := true;
    }

    /** Applies only when asked to and when there is no collision at all; then it always commits. */
    method RunCustomerIdentityMigration(canon: Canonicalizer, apply: bool) returns (report: Report)
      requires Users(users) && Wallets(wallets) && Canonicalizes(canon)
      modifies this
      ensures report == Scan(old(users), old(wallets), canon)
      ensures apply && report.collisions == [] ==>
                users == MigratedUsers(old(users), canon) && wallets == MigratedWallets(old(wallets), old(users), canon)
      ensures !apply || report.collisions != [] ==> users == old(users) && wallets == old(wallets)
    {
      report := ScanAll(canon);
      if report.collisions == [] {
        MigrationRoundTrip(users, wallets, canon);
        if report.updates == [] {
          NothingToDo(users, wallets, canon);
        }
      }
      if apply && |report.updates| > 0 && |report.collisions| == 0 {
        var committed := Transact(report.updates, report.walletUpdates);
      }
    }

    /** Writes a snapshot back; the caller learns whether it could be written in full. */
    method ApplyRollback(snapshot: Snapshot) returns (success: bool)
      modifies this
      ensures success <==> ApplyAll(old(users), snapshot.users).Some? && ApplyWallets(old(wallets), snapshot.wallets).Some?
      ensures success ==> users == ApplyAll(old(users), snapshot.users).value && wallets == ApplyWallets(old(wallets), snapshot.wallets).value
      ensures !success ==> users == old(users) && wallets == old(wallets)
    {
      success := Transact(snapshot.users, snapshot.wallets);
    }

    /** Migrating and rolling back gives the tables that were there before. */
    method MigrateAndRollBack(canon: Canonicalizer)
      requires Users(users) && Wallets(wallets) && Canonicalizes(canon)
      modifies this
      ensures users == old(users) && wallets == old(wallets)
    {
      var report := RunCustomerIdentityMigration(canon, true);
      if report.collisions == [] {
        MigrationRoundTrip(old(users), old(wallets), canon);
        var success := ApplyRollback(report.snapshot);
      }
    }
  }

  /** Without proposals no wallet changes either. */
  lemma NothingToDo(users: seq<Row>, wallets: seq<Wallet>, canon: Canonicalizer)
    requires Users(users) && Wallets(wallets) && Canonicalizes(canon)
    requires Scan(users, wallets, canon).collisions == [] && Scan(users, wallets, canon).updates == []
    ensures MigratedUsers(users, canon) == users && MigratedWallets(wallets, users, canon) == wallets
  {
    ScanReportsCollisions(users, wallets, canon);
    assert users[..|users|] == users;
    ScanCovers(users, wallets, canon, |users|);
    UsersMigrate(users, wallets, canon);
    forall i | 0 <= i < |users|
      ensures canon(users[i].phone) == Some(users[i].phone)
    {
    }
  }
}
