/**
 The KYC data migration: batched migrate, verify and rollback over the rows and their backups.
 One script runs at a time; a batch is one transaction.
 */
module KycMigration {
  import opened Wrappers
  import opened Json
  import opened KycEncryption
  import opened OrderedQuery
  import opened Sets

  datatype Row = Row(payload: Option<Text>, version: Option<int>, createdAt: int)

  datatype Backup = Backup(
    original: Text, version: int, format: Format, checksum: Option<Text>, migratedAt: int, rolledBackAt: Option<int>)

  datatype Db = Db(kyc: map<nat, Row>, backups: map<nat, Backup>)

  /** The random salts drawn for a row. */
  datatype Randomness = Randomness(field: (nat, Text) -> Text, outer: nat -> Text)

  function Prepare(c: Crypto, rnd: Randomness, id: nat, row: Row): Result<PreparedRow, Error> {
    PrepareRow(c, k => rnd.field(id, k), rnd.outer(id), row.payload, row.version)
  }

  type Preparation = (nat, Row) -> Result<PreparedRow, Error>

  /** Row preparation under given keys and salts, as one function. */
  function Preparer(c: Crypto, rnd: Randomness): Preparation {
    (id: nat, row: Row) => Prepare(c, rnd, id, row)
  }

  /** The preparation is that of lawful ciphers under some salts. */
  ghost predicate PreparesWith(c: Crypto, prep: Preparation) {
    Lawful(c) && exists rnd :: prep == Preparer(c, rnd)
  }

  /** Rows the migration still has to look at: those without a backup. */
  function Pending(db: Db): set<nat> {
    db.kyc.Keys - db.backups.Keys
  }

  /** Backups the rollback still has to restore. */
  function Restorable(db: Db): set<nat> {
    set id | id in db.backups && db.backups[id].format.Plaintext? && db.backups[id].rolledBackAt.None?
  }

  function CreationOrder(db: Db): Rank {
    map id | id in db.kyc :: db.kyc[id].createdAt
  }

  function BackupOrder(db: Db): Rank {
    map id | id in db.backups :: db.backups[id].migratedAt
  }

  /** A page of the migration leaves no row out that was created before one that it takes. */
  lemma PageIsEarliest(db: Db, page: seq<nat>, i: nat, other: nat)
    requires FirstPage(page, Pending(db), CreationOrder(db)) && i < |page|
    requires other in db.kyc && other !in db.backups && other !in page
    ensures page[i] in db.kyc && page[i] !in db.backups
    ensures db.kyc[page[i]].createdAt < db.kyc[other].createdAt
            || (db.kyc[page[i]].createdAt == db.kyc[other].createdAt && page[i] < other)
  {
    var all :| Enumerates(all, Pending(db), CreationOrder(db)) && page <= all;
    assert other in Pending(db) && page[i] == all[i];
    var j :| 0 <= j < |all| && all[j] == other;
    assert j >= |page|;
  }

  lemma LastAreOnPage(all: seq<nat>, page: seq<nat>, j: nat)
    requires |page| <= |all| && forall n :: 0 <= n < |page| ==> page[n] == all[|all| - 1 - n]
    ensures |all| - |page| <= j < |all| ==> all[j] in page
  {
    if |all| - |page| <= j < |all| {
      assert page[|all| - 1 - j] == all[j];
    }
  }

  /** A page of the rollback leaves no backup out that was made after one that it takes. */
  lemma PageIsLatest(db: Db, page: seq<nat>, i: nat, other: nat)
    requires LastPage(page, Restorable(db), BackupOrder(db)) && i < |page|
    requires other in db.backups && db.backups[other].format.Plaintext? && db.backups[other].rolledBackAt.None?
    requires other !in page
    ensures page[i] in db.backups && db.backups[page[i]].format.Plaintext? && db.backups[page[i]].rolledBackAt.None?
    ensures db.backups[page[i]].migratedAt > db.backups[other].migratedAt
            || (db.backups[page[i]].migratedAt == db.backups[other].migratedAt && page[i] > other)
  {
    var all :|
      && Enumerates(all, Restorable(db), BackupOrder(db)) && |page| <= |all|
      && forall n :: 0 <= n < |page| ==> page[n] == all[|all| - 1 - n];
    assert other in Restorable(db);
    var j :| 0 <= j < |all| && all[j] == other;
    LastAreOnPage(all, page, j);
    assert Before(BackupOrder(db), all[j], all[|all| - 1 - i]);
  }

  // ---- What the operations do, row by row ----------------------------------------------

  ghost predicate MigratedAs(prep: Preparation, id: nat, before: Row, after: Row, b: Backup) {
    var r := prep(id, before);
    && r.Ok?
    && b == Backup(r.value.originalValue, r.value.originalVersion, r.value.format, r.value.checksum, b.migratedAt, None)
    && after == if r.value.format.Encrypted? then before else Row(r.value.migratedValue, Some(1), before.createdAt)
  }

  /** Exactly the rows in `done` were migrated and got a backup; all else is untouched. */
  ghost predicate Migrated(prep: Preparation, before: Db, after: Db, done: set<nat>) {
    && done <= Pending(before)
    && after.kyc.Keys == before.kyc.Keys && after.backups.Keys == before.backups.Keys + done
    && (forall id :: id in before.backups ==> after.backups[id] == before.backups[id])
    && (forall id :: id in before.kyc && id !in done ==> after.kyc[id] == before.kyc[id])
    && (forall id :: id in done ==> MigratedAs(prep, id, before.kyc[id], after.kyc[id], after.backups[id]))
  }

  /** The backup is marked, and its row (if it still exists) holds the backed-up payload and version. */
  ghost predicate RestoredAs(before: Db, after: Db, id: nat)
    requires id in before.backups && id in after.backups && before.kyc.Keys == after.kyc.Keys
  {
    var b := before.backups[id];
    && (id in before.kyc ==> after.kyc[id] == Row(Some(b.original), Some(b.version), before.kyc[id].createdAt))
    && after.backups[id].rolledBackAt.Some? && after.backups[id] == b.(rolledBackAt := after.backups[id].rolledBackAt)
  }

  /** Exactly the rows in `done` were restored from their backups and marked; all else is untouched. */
  ghost predicate RolledBack(before: Db, after: Db, done: set<nat>) {
    && done <= Restorable(before)
    && after.kyc.Keys == before.kyc.Keys && after.backups.Keys == before.backups.Keys
    && (forall id :: id in before.backups && id !in done ==> after.backups[id] == before.backups[id])
    && (forall id :: id in before.kyc && id !in done ==> after.kyc[id] == before.kyc[id])
    && (forall id :: id in done ==> RestoredAs(before, after, id))
  }

  lemma MigratedCompose(prep: Preparation, a: Db, b: Db, d: Db, s: set<nat>, t: set<nat>)
    requires Migrated(prep, a, b, s) && Migrated(prep, b, d, t)
    ensures Migrated(prep, a, d, s + t)
  {
    forall id | id in s + t ensures MigratedAs(prep, id, a.kyc[id], d.kyc[id], d.backups[id]) {
      if id in s {
        assert MigratedAs(prep, id, a.kyc[id], b.kyc[id], b.backups[id]);
      }
    }
  }

  lemma PendingAfter(prep: Preparation, a: Db, b: Db, s: set<nat>)
    requires Migrated(prep, a, b, s)
    ensures Pending(b) == Pending(a) - s && |Pending(b)| == |Pending(a)| - |s|
  {
  }

  lemma RolledBackCompose(a: Db, b: Db, d: Db, s: set<nat>, t: set<nat>)
    requires RolledBack(a, b, s) && RolledBack(b, d, t)
    ensures RolledBack(a, d, s + t)
  {
    RestorableAfter(a, b, s);
    forall id | id in s + t ensures RestoredAs(a, d, id) {
      if id in s {
        assert RestoredAs(a, b, id);
      } else {
        assert RestoredAs(b, d, id);
      }
    }
  }

  lemma RestorableAfter(before: Db, after: Db, done: set<nat>)
    requires RolledBack(before, after, done)
    ensures Restorable(after) == Restorable(before) - done
    ensures |Restorable(after)| == |Restorable(before)| - |done|
  {
    forall id ensures id in Restorable(after) <==> id in Restorable(before) - done {
      if id in done {
        assert RestoredAs(before, after, id);
      }
    }
  }

  /** The backups of `ids` were all made at the instant `at`, that of their transaction. */
  ghost predicate MadeAt(db: Db, ids: set<nat>, at: int) {
    forall id :: id in ids ==> id in db.backups && db.backups[id].migratedAt == at
  }

  /** The backups of `ids` were all rolled back at the instant `at`. */
  ghost predicate UndoneAt(db: Db, ids: set<nat>, at: int) {
    forall id :: id in ids ==> id in db.backups && db.backups[id].rolledBackAt == Some(at)
  }

  lemma OneMoreMade(prep: Preparation, before: Db, after: Db, done: set<nat>, id: nat, at: int)
    requires MadeAt(before, done, at) && Migrated(prep, before, after, {id}) && MadeAt(after, {id}, at)
    ensures MadeAt(after, done + {id}, at)
  {
  }

  lemma OneMoreUndone(before: Db, after: Db, done: set<nat>, id: nat, at: int)
    requires UndoneAt(before, done, at) && RolledBack(before, after, {id}) && UndoneAt(after, {id}, at)
    ensures UndoneAt(after, done + {id}, at)
  {
  }

  // ---- The invariant of every run ------------------------------------------------------

  /**
   A row against its contents before any migration: untouched without a backup; with one, it is
   the original (already encrypted, or rolled back) or a payload matching the original's checksum.
   */
  ghost predicate Consistent(c: Crypto, orig: map<nat, Row>, db: Db, id: nat)
    requires id in orig && id in db.kyc
  {
    if id !in db.backups then db.kyc[id] == orig[id]
    else
      var b, row := db.backups[id], db.kyc[id];
      && orig[id].payload == Some(b.original) && b.original != []
      && match b.format {
           case Encrypted => row == orig[id] && b.rolledBackAt.None? && TryDecryptStored(c, b.original).Some?
           case Plaintext =>
             && b.version == (if orig[id].version.Some? then orig[id].version.value else 0)
             && ParsePayload(c, Str(b.original)).Ok?
             && b.checksum == Some(Checksum(c, ParsePayload(c, Str(b.original)).value)) && b.checksum.value != []
             && row.createdAt == orig[id].createdAt
             && if b.rolledBackAt.Some? then row == Row(Some(b.original), Some(b.version), row.createdAt)
                else row.version == Some(1) && row.payload.Some? && row.payload.value != []
                     && VerifyEncrypted(c, row.payload.value, b.checksum.value)
         }
  }

  ghost predicate Inv(c: Crypto, orig: map<nat, Row>, db: Db) {
    && db.kyc.Keys == orig.Keys && db.backups.Keys <= orig.Keys
    && (forall id :: id in orig ==> Consistent(c, orig, db, id))
  }

  lemma MigrationKeepsInv(c: Crypto, prep: Preparation, orig: map<nat, Row>, before: Db, after: Db, done: set<nat>)
    requires PreparesWith(c, prep) && Inv(c, orig, before) && Migrated(prep, before, after, done)
    ensures Inv(c, orig, after)
  {
    var rnd :| prep == Preparer(c, rnd);
    forall id | id in orig ensures Consistent(c, orig, after, id) {
      assert Consistent(c, orig, before, id);
      if id in done {
        assert MigratedAs(prep, id, before.kyc[id], after.kyc[id], after.backups[id]);
        AcceptedRowIsSound(c, k => rnd.field(id, k), rnd.outer(id), before.kyc[id].payload, before.kyc[id].version);
      }
    }
  }

  lemma RollbackKeepsInv(c: Crypto, orig: map<nat, Row>, before: Db, after: Db, done: set<nat>)
    requires Inv(c, orig, before) && RolledBack(before, after, done)
    ensures Inv(c, orig, after)
  {
    forall id | id in orig ensures Consistent(c, orig, after, id) {
      assert Consistent(c, orig, before, id);
      if id in done {
        assert RestoredAs(before, after, id);
      }
    }
  }

  /** One step of the script: a whole or partial migration, a rollback, or an aborted transaction. */
  ghost predicate ScriptStep(c: Crypto, before: Db, after: Db) {
    || before == after
    || (exists prep, done :: PreparesWith(c, prep) && Migrated(prep, before, after, done))
    || (exists done :: RolledBack(before, after, done))
  }

  /** Every state of every run of migrations and rollbacks is consistent with the original rows. */
  lemma {:induction false} RunKeepsInv(c: Crypto, states: seq<Db>, i: nat)
    requires i < |states| && states[0].backups == map[]
    requires forall j :: 0 <= j < |states| - 1 ==> ScriptStep(c, states[j], states[j + 1])
    ensures Inv(c, states[0].kyc, states[i])
  {
    if i > 0 {
      RunKeepsInv(c, states, i - 1);
      var orig, before, after := states[0].kyc, states[i - 1], states[i];
      assert ScriptStep(c, before, states[i - 1 + 1]);
      if prep, done :| PreparesWith(c, prep) && Migrated(prep, before, after, done) {
        MigrationKeepsInv(c, prep, orig, before, after, done);
      } else if done :| RolledBack(before, after, done) {
        RollbackKeepsInv(c, orig, before, after, done);
      }
    }
  }

  /** Nothing left to roll back: every row is back, with a null version of a migrated row become 0. */
  lemma FullRollbackRestores(c: Crypto, orig: map<nat, Row>, db: Db, id: nat)
    requires Inv(c, orig, db) && Restorable(db) == {} && id in orig
    ensures db.kyc[id].payload == orig[id].payload && db.kyc[id].createdAt == orig[id].createdAt
    ensures db.kyc[id].version == orig[id].version
            || (id in db.backups && db.backups[id].format.Plaintext? && orig[id].version.None?
              && db.kyc[id].version == Some(0))
  {
    assert Consistent(c, orig, db, id);
    assert id !in Restorable(db);
  }

  /** What `verifyMigration` demands of one backed-up row. */
  predicate RowVerifies(c: Crypto, row: Row, b: Backup) {
    && !NoText(row.payload)
    && if b.rolledBackAt.Some? then row.payload == Some(b.original)
       else if b.format.Encrypted? then TryDecryptStored(c, row.payload.value).Some?
       else !NoText(b.checksum) && VerifyEncrypted(c, row.payload.value, b.checksum.value)
  }

  /** In every state of every run, each backed-up row passes verification. */
  lemma InvVerifies(c: Crypto, orig: map<nat, Row>, db: Db, id: nat)
    requires Inv(c, orig, db) && id in db.backups
    ensures RowVerifies(c, db.kyc[id], db.backups[id])
  {
    assert Consistent(c, orig, db, id);
  }

  /** A backup as a migration makes it: a plaintext one carries the checksum of the record its original parses to. */
  ghost predicate Sound(c: Crypto, b: Backup) {
    && b.original != []
    && (b.format.Plaintext? ==>
          var parsed := ParsePayload(c, Str(b.original));
          parsed.Ok? && b.checksum == Some(Checksum(c, parsed.value)))
  }

  /**
   A row holds what its backup stands for: the original after a rollback, some record if it was already encrypted,
   else the same record.
   */
  ghost predicate Intact(c: Crypto, row: Row, b: Backup) {
    && row.payload.Some? && row.payload.value != []
    && if b.rolledBackAt.Some? then row.payload.value == b.original
       else
         var record := StoredRecord(c, row.payload.value);
         && record.Some?
         && (b.format.Plaintext? ==>
               && ParsePayload(c, Str(b.original)).Ok?
               && NormEntries(record.value) == NormEntries(ParsePayload(c, Str(b.original)).value))
  }

  /** A row passes verification if and only if it is intact; so a row whose payload was changed since is rejected. */
  lemma RowVerifiesIff(c: Crypto, row: Row, b: Backup)
    requires Lawful(c) && Sound(c, b)
    ensures RowVerifies(c, row, b) <==> Intact(c, row, b)
  {
    if b.format.Plaintext? && row.payload.Some? {
      VerifiesIff(c, row.payload.value, ParsePayload(c, Str(b.original)).value);
    }
  }

  /** What `verifyMigration` demands of the tables. */
  ghost predicate AllVerify(c: Crypto, db: Db) {
    forall id :: id in db.backups && id in db.kyc ==> RowVerifies(c, db.kyc[id], db.backups[id])
  }

  /** `verifyMigration` accepts tables with sound backups if and only if every backed-up row is intact. */
  lemma AcceptsIffIntact(c: Crypto, db: Db)
    requires Lawful(c) && forall id :: id in db.backups ==> Sound(c, db.backups[id])
    ensures AllVerify(c, db)
            <==> forall id :: id in db.backups && id in db.kyc ==> Intact(c, db.kyc[id], db.backups[id])
  {
    forall id | id in db.backups && id in db.kyc
      ensures RowVerifies(c, db.kyc[id], db.backups[id]) <==> Intact(c, db.kyc[id], db.backups[id])
    {
      RowVerifiesIff(c, db.kyc[id], db.backups[id]);
    }
  }

  /** The backups of every run are sound, so on its tables `verifyMigration` accepts exactly the intact ones. */
  lemma RunBackupsAreSound(c: Crypto, states: seq<Db>, i: nat, id: nat)
    requires i < |states| && states[0].backups == map[]
    requires forall j :: 0 <= j < |states| - 1 ==> ScriptStep(c, states[j], states[j + 1])
    requires id in states[i].backups
    ensures Sound(c, states[i].backups[id])
  {
    RunKeepsInv(c, states, i);
    assert Consistent(c, states[0].kyc, states[i], id);
  }

  /** So in every state of every run `verifyMigration` finds nothing to reject. */
  lemma RunVerifies(c: Crypto, states: seq<Db>, i: nat)
    requires i < |states| && states[0].backups == map[]
    requires forall j :: 0 <= j < |states| - 1 ==> ScriptStep(c, states[j], states[j + 1])
    ensures AllVerify(c, states[i])
  {
    RunKeepsInv(c, states, i);
    forall id | id in states[i].backups
      ensures id in states[i].kyc && RowVerifies(c, states[i].kyc[id], states[i].backups[id])
    {
      InvVerifies(c, states[0].kyc, states[i], id);
    }
  }

  // ---- The script -----------------------------------------------------------------------

  /** Some pending row is refused: its text is no usable payload, or a sensitive field is not text. */
  ghost predicate SomeRefused(prep: Preparation, db: Db) {
    exists id :: id in Pending(db) && prep(id, db.kyc[id]).Err?
  }

  lemma RefusedEarlier(prep: Preparation, before: Db, after: Db, done: set<nat>)
    requires Migrated(prep, before, after, done) && SomeRefused(prep, after)
    ensures SomeRefused(prep, before)
  {
    var id :| id in Pending(after) && prep(id, after.kyc[id]).Err?;
    assert id in Pending(before) && before.kyc[id] == after.kyc[id];
  }

  lemma NoneRefused(prep: Preparation, before: Db, after: Db)
    requires Migrated(prep, before, after, Pending(before))
    ensures !SomeRefused(prep, before)
  {
    forall id | id in Pending(before) ensures prep(id, before.kyc[id]).Ok? {
      assert MigratedAs(prep, id, before.kyc[id], after.kyc[id], after.backups[id]);
    }
  }

  lemma AllMigrated(prep: Preparation, before: Db, after: Db, done: set<nat>)
    requires Migrated(prep, before, after, done) && |Pending(after)| == 0
    ensures done == Pending(before) && Pending(after) == {} && !SomeRefused(prep, before)
  {
    PendingAfter(prep, before, after, done);
    NothingLeft(Pending(after), Pending(before), done);
    NoneRefused(prep, before, after);
  }

  lemma AllRestored(before: Db, after: Db, done: set<nat>)
    requires RolledBack(before, after, done) && |Restorable(after)| == 0
    ensures done == Restorable(before) && Restorable(after) == {}
  {
    RestorableAfter(before, after, done);
    assert Restorable(after) == {};
  }

  lemma AllRowsVerify(c: Crypto, db: Db, whole: seq<nat>)
    requires Enumerates(whole, db.backups.Keys * db.kyc.Keys, BackupOrder(db))
    requires forall i :: 0 <= i < |whole| ==>
               whole[i] in db.kyc && whole[i] in db.backups && RowVerifies(c, db.kyc[whole[i]], db.backups[whole[i]])
    ensures AllVerify(c, db)
  {
    forall id | id in db.backups && id in db.kyc ensures RowVerifies(c, db.kyc[id], db.backups[id]) {
      assert id in db.backups.Keys * db.kyc.Keys && id in whole;
    }
  }

  class Migrator {
    var kyc: map<nat, Row>
    var backups: map<nat, Backup>
    const crypto: Crypto

    constructor (crypto: Crypto, kyc: map<nat, Row>)
      ensures this.crypto == crypto && this.kyc == kyc && backups == map[]
      ensures Inv(crypto, kyc, View())
    {
      this.crypto := crypto;
      this.kyc := kyc;
      this.backups := map[];
    }

    function View(): Db
      reads this
    {
      Db(kyc, backups)
    }

    /** One row inside a transaction: refused, or backed up and (if plaintext) encrypted. */
    method MigrateRow(prep: Preparation, id: nat, now: int) returns (r: Result<Format, Error>)
      requires id in Pending(View())
      modifies this
      ensures r.Ok? ==> Migrated(prep, old(View()), View(), {id}) && MadeAt(View(), {id}, now)
      ensures r.Err? ==> View() == old(View()) && SomeRefused(prep, View())
    {
      match prep(id, kyc[id])
      case Err(e) =>
        return Err(e);
      case Ok(p) =>
        if id !in backups {
          backups := backups[id := Backup(p.originalValue, p.originalVersion, p.format, p.checksum, now, None)];
        }
        if p.format != Encrypted {
          kyc := kyc[id := Row(p.migratedValue, Some(1), kyc[id].createdAt)];
        }
        return Ok(p.format);
    }

    /** The next row of a transaction that began in `start` and has dealt with `done`. */
    method MigrateNext(prep: Preparation, id: nat, now: int, ghost start: Db, ghost done: set<nat>)
      returns (r: Result<Format, Error>)
      requires id in Pending(View()) && Migrated(prep, start, View(), done) && MadeAt(View(), done, now)
      modifies this
      ensures r.Ok? ==> Migrated(prep, start, View(), done + {id}) && Pending(View()) == Pending(old(View())) - {id}
      ensures r.Ok? ==> MadeAt(View(), done + {id}, now) && |Pending(View())| == |Pending(old(View()))| - 1
      ensures r.Err? ==> SomeRefused(prep, start)
    {
      ghost var before := View();
      r := MigrateRow(prep, id, now);
      if r.Err? {
        RefusedEarlier(prep, start, before, done);
      } else {
        MigratedCompose(prep, start, before, View(), done, {id});
        OneMoreMade(prep, before, View(), done, id, now);
        PendingAfter(prep, before, View(), {id});
      }
    }

    /** The first rows without a backup, by creation time and id. */
    method SelectPending(batchSize: nat) returns (rows: seq<nat>)
      ensures |rows| == Min(batchSize, |Pending(View())|) && Distinct(rows)
      ensures forall i :: 0 <= i < |rows| ==> rows[i] in Pending(View())
      ensures FirstPage(rows, Pending(View()), CreationOrder(View()))
    {
      var all := OrderBy(Pending(View()), CreationOrder(View()));
      rows := all[..Min(batchSize, |all|)];
      assert forall i, j :: 0 <= i < j < |rows| ==> Before(CreationOrder(View()), all[i], all[j]);
    }

    /** The last rows to restore, by backup time and id, latest first. */
    method SelectRestorable(batchSize: nat) returns (rows: seq<nat>)
      ensures |rows| == Min(batchSize, |Restorable(View())|) && Distinct(rows)
      ensures forall i :: 0 <= i < |rows| ==> rows[i] in Restorable(View())
      ensures LastPage(rows, Restorable(View()), BackupOrder(View()))
    {
      ghost var rank := BackupOrder(View());
      var all := OrderBy(Restorable(View()), BackupOrder(View()));
      rows := LastReversed(all, Min(batchSize, |all|));
      LastReversedIsPage(all, Restorable(View()), rank, |rows|);
    }

    /** The loop over a batch; a refused row leaves the transaction half done. */
    method MigrateRows(prep: Preparation, rows: seq<nat>, now: int)
      returns (r: Result<(nat, nat), Error>, ghost batch: set<nat>)
      requires Distinct(rows) && forall i :: 0 <= i < |rows| ==> rows[i] in Pending(View())
      modifies this
      ensures r.Ok? ==> Migrated(prep, old(View()), View(), batch) && MadeAt(View(), batch, now)
      ensures r.Ok? ==> r.value.0 + r.value.1 == |rows| == |Pending(old(View()))| - |Pending(View())|
      ensures r.Err? ==> SomeRefused(prep, old(View()))
    {
      ghost var start := View();
      batch := {};
      var migrated, skipped := 0, 0;
      for i := 0 to |rows|
        invariant Migrated(prep, start, View(), batch) && MadeAt(View(), batch, now)
        invariant forall j :: i <= j < |rows| ==> rows[j] in Pending(View())
        invariant migrated + skipped == i == |Pending(start)| - |Pending(View())|
      {
        assert forall j :: i < j < |rows| ==> rows[j] != rows[i];
        var format := MigrateNext(prep, rows[i], now, start, batch);
        if format.Err? {
          return Err(format.error), {};
        }
        batch := batch + {rows[i]};
        if format.value == Encrypted {
          skipped := skipped + 1;
        } else {
          migrated := migrated + 1;
        }
      }
      r := Ok((migrated, skipped));
    }

    /** One transaction: all of the batch or, when a row is refused, nothing. */
    method MigrateBatch(prep: Preparation, batchSize: nat, now: int)
      returns (r: Result<(nat, nat), Error>, ghost batch: set<nat>)
      modifies this
      ensures r.Ok? ==> Migrated(prep, old(View()), View(), batch) && MadeAt(View(), batch, now)
      ensures r.Ok? ==> r.value.0 + r.value.1 == Min(batchSize, |Pending(old(View()))|)
                        == |Pending(old(View()))| - |Pending(View())|
      ensures r.Err? ==> View() == old(View()) && SomeRefused(prep, View())
    {
      var kyc0, backups0 := kyc, backups;
      var rows := SelectPending(batchSize);
      r, batch := MigrateRows(prep, rows, now);
      if r.Err? {
        kyc, backups := kyc0, backups0;
      }
    }

    /** The next transaction of a run that began in `start` and has dealt with `done`; an empty one ends the run. */
    method MigrateNextBatch(prep: Preparation, batchSize: nat, now: int, ghost start: Db, ghost done: set<nat>)
      returns (r: Result<(nat, nat), Error>, ghost done': set<nat>)
      requires batchSize > 0 && Migrated(prep, start, View(), done)
      modifies this
      ensures Migrated(prep, start, View(), done')
      ensures r.Ok? ==> |done'| == |done| + r.value.0 + r.value.1
                        && |Pending(View())| == |Pending(old(View()))| - r.value.0 - r.value.1
      ensures r.Ok? && r.value.0 + r.value.1 == 0 ==>
                done' == Pending(start) && Pending(View()) == {} && !SomeRefused(prep, start)
      ensures r.Err? ==> SomeRefused(prep, start)
    {
      ghost var before := View();
      ghost var batch: set<nat>;
      r, batch := MigrateBatch(prep, batchSize, now);
      if r.Err? {
        RefusedEarlier(prep, start, View(), done);
        done' := done;
      } else {
        done' := done + batch;
        MigratedCompose(prep, start, before, View(), done, batch);
        PendingAfter(prep, start, before, done);
        PendingAfter(prep, start, View(), done');
        if r.value.0 + r.value.1 == 0 {
          AllMigrated(prep, start, View(), done');
        }
      }
    }

    /**
     Terminates for every database and positive batch size. It migrates every row without a
     backup, or stops at a refused one keeping whole batches; so a second run changes nothing. Each
     batch is one transaction, whose time is `clock` of its number.
     */
    method RunMigration(prep: Preparation, batchSize: nat, clock: nat -> int)
      returns (r: Result<(nat, nat), Error>, ghost done: set<nat>)
      requires batchSize > 0
      modifies this
      ensures Migrated(prep, old(View()), View(), done)
      ensures r.Ok? <==> !SomeRefused(prep, old(View()))
      ensures r.Ok? ==> done == Pending(old(View())) && Pending(View()) == {} && r.value.0 + r.value.1 == |done|
    {
      ghost var start := View();
      var totalMigrated, totalSkipped, batchNumber := 0, 0, 0;
      done := {};
      while true
        invariant Migrated(prep, start, View(), done)
        invariant totalMigrated + totalSkipped == |done|
        decreases |Pending(View())|
      {
        batchNumber := batchNumber + 1;
        var result;
        result, done := MigrateNextBatch(prep, batchSize, clock(batchNumber), start, done);
        if result.Err? {
          return Err(result.error), done;
        }
        if result.value.0 == 0 && result.value.1 == 0 {
          return Ok((totalMigrated, totalSkipped)), done;
        }
        totalMigrated, totalSkipped := totalMigrated + result.value.0, totalSkipped + result.value.1;
      }
    }

    /** The checks on one backed-up row, in the order the script makes them. */
    method VerifyRow(row: Row, b: Backup) returns (ok: bool)
      ensures ok == RowVerifies(crypto, row, b)
    {
      if row.payload.None? || row.payload.value == [] {
        return false;
      }
      if b.rolledBackAt.Some? {
        return row.payload.value == b.original;
      }
      if b.format == Encrypted {
        return TryDecryptStored(crypto, row.payload.value).Some?;
      }
      if b.checksum.None? || b.checksum.value == [] {
        return false;
      }
      ok := VerifyEncrypted(crypto, row.payload.value, b.checksum.value);
    }

    /** One page of the verification: the rows up to the first that does not pass. */
    method VerifyPage(rows: seq<nat>) returns (passed: nat)
      requires forall i :: 0 <= i < |rows| ==> rows[i] in kyc && rows[i] in backups
      ensures passed <= |rows|
      ensures forall i :: 0 <= i < passed ==> RowVerifies(crypto, kyc[rows[i]], backups[rows[i]])
      ensures passed < |rows| ==> !RowVerifies(crypto, kyc[rows[passed]], backups[rows[passed]])
    {
      passed := 0;
      while passed < |rows|
        invariant passed <= |rows|
        invariant forall i :: 0 <= i < passed ==> RowVerifies(crypto, kyc[rows[i]], backups[rows[i]])
      {
        var ok := VerifyRow(kyc[rows[passed]], backups[rows[passed]]);
        if !ok {
          return;
        }
        passed := passed + 1;
      }
    }

    /** One page of the join of rows and backups by backup time and id; every query sees the same order. */
    method SelectBackups(batchSize: nat, offset: nat, ghost whole: seq<nat>) returns (rows: seq<nat>)
      requires Enumerates(whole, backups.Keys * kyc.Keys, BackupOrder(View())) && offset <= |whole|
      ensures rows == whole[offset..Min(offset + batchSize, |whole|)]
      ensures forall i :: 0 <= i < |rows| ==> rows[i] in kyc && rows[i] in backups
    {
      var joined := backups.Keys * kyc.Keys;
      var all := OrderBy(joined, BackupOrder(View()));
      EnumerationIsUnique(all, whole, joined, BackupOrder(View()));
      rows := all[offset..Min(offset + batchSize, |all|)];
      assert forall i :: 0 <= i < |rows| ==> rows[i] == all[offset + i] && rows[i] in joined;
    }

    /** Accepts exactly when every backed-up row passes, having looked at each exactly once. */
    method VerifyMigration(batchSize: nat) returns (r: Result<nat, nat>, ghost visited: seq<nat>)
      requires batchSize > 0
      ensures r.Ok? <==> AllVerify(crypto, View())
      ensures r.Ok? ==> Enumerates(visited, backups.Keys * kyc.Keys, BackupOrder(View()))
                        && r.value == |visited|
      ensures r.Err? ==> r.error in backups && r.error in kyc && !RowVerifies(crypto, kyc[r.error], backups[r.error])
    {
      var offset, verified := 0, 0;
      ghost var whole := OrderBy(backups.Keys * kyc.Keys, BackupOrder(View()));
      visited := [];
      while true
        invariant offset == verified <= |whole| && visited == whole[..offset]
        invariant forall i :: 0 <= i < offset ==> RowVerifies(crypto, kyc[whole[i]], backups[whole[i]])
        decreases |whole| - offset
      {
        var rows := SelectBackups(batchSize, offset, whole);
        if |rows| == 0 {
          assert visited == whole;
          AllRowsVerify(crypto, View(), whole);
          return Ok(verified), visited;
        }
        var passed := VerifyPage(rows);
        visited := visited + rows[..passed];
        if passed < |rows| {
          return Err(rows[passed]), visited;
        }
        verified := verified + |rows|;
        offset := offset + |rows|;
      }
    }

    method RestoreRow(id: nat, now: int)
      requires id in Restorable(View())
      modifies this
      ensures RolledBack(old(View()), View(), {id}) && UndoneAt(View(), {id}, now)
    {
      if id in kyc {
        kyc := kyc[id := Row(Some(backups[id].original), Some(backups[id].version), kyc[id].createdAt)];
      }
      backups := backups[id := backups[id].(rolledBackAt := Some(now))];
    }

    /** The next row of a transaction that began in `start` and has dealt with `done`. */
    method RestoreNext(id: nat, now: int, ghost start: Db, ghost done: set<nat>)
      requires id in Restorable(View()) && RolledBack(start, View(), done) && UndoneAt(View(), done, now)
      modifies this
      ensures RolledBack(start, View(), done + {id}) && UndoneAt(View(), done + {id}, now)
      ensures Restorable(View()) == Restorable(old(View())) - {id}
      ensures |Restorable(View())| == |Restorable(old(View()))| - 1
    {
      ghost var before := View();
      RestoreRow(id, now);
      RolledBackCompose(start, before, View(), done, {id});
      OneMoreUndone(before, View(), done, id, now);
      RestorableAfter(before, View(), {id});
    }

    /** The loop over a batch. */
    method RestoreRows(rows: seq<nat>, now: int) returns (ghost batch: set<nat>)
      requires Distinct(rows) && forall i :: 0 <= i < |rows| ==> rows[i] in Restorable(View())
      modifies this
      ensures RolledBack(old(View()), View(), batch) && UndoneAt(View(), batch, now)
      ensures |rows| == |Restorable(old(View()))| - |Restorable(View())|
    {
      ghost var start := View();
      batch := {};
      for i := 0 to |rows|
        invariant RolledBack(start, View(), batch) && UndoneAt(View(), batch, now)
        invariant forall j :: i <= j < |rows| ==> rows[j] in Restorable(View())
        invariant i == |Restorable(start)| - |Restorable(View())|
      {
        RestoreNext(rows[i], now, start, batch);
        batch := batch + {rows[i]};
      }
    }

    /** One transaction over the latest backups that are not rolled back. */
    method RollbackBatch(batchSize: nat, now: int) returns (restored: nat, ghost batch: set<nat>)
      modifies this
      ensures RolledBack(old(View()), View(), batch) && UndoneAt(View(), batch, now)
      ensures restored == Min(batchSize, |Restorable(old(View()))|) == |Restorable(old(View()))| - |Restorable(View())|
    {
      var rows := SelectRestorable(batchSize);
      batch := RestoreRows(rows, now);
      restored := |rows|;
    }

    /** Terminates and restores every plaintext backup not rolled back before; a second run changes nothing. */
    method RollbackMigration(batchSize: nat, clock: nat -> int) returns (restored: nat)
      requires batchSize > 0
      modifies this
      ensures RolledBack(old(View()), View(), Restorable(old(View()))) && Restorable(View()) == {}
      ensures restored == |Restorable(old(View()))|
    {
      ghost var start := View();
      ghost var done := {};
      restored := 0;
      var batchNumber := 0;
      while true
        invariant RolledBack(start, View(), done)
        invariant restored == |Restorable(start)| - |Restorable(View())|
        decreases |Restorable(View())|
      {
        ghost var before := View();
        var count, batch := RollbackBatch(batchSize, clock(batchNumber));
        batchNumber := batchNumber + 1;
        RolledBackCompose(start, before, View(), done, batch);
        done := done + batch;
        restored := restored + count;
        if count == 0 {
          AllRestored(start, View(), done);
          return;
        }
      }
    }
  }

  /** Migrating again once no row lacks a backup changes nothing. */
  lemma MigratingAgainChangesNothing(prep: Preparation, before: Db, after: Db, done: set<nat>)
    requires Migrated(prep, before, after, done) && Pending(before) == {}
    ensures after == before
  {
    assert done == {};
    assert after.kyc == before.kyc && after.backups == before.backups;
  }

  /** Rolling back again once every plaintext backup is rolled back changes nothing. */
  lemma RollingBackAgainChangesNothing(before: Db, after: Db, done: set<nat>)
    requires RolledBack(before, after, done) && Restorable(before) == {}
    ensures after == before
  {
    assert done == {};
    assert after.kyc == before.kyc && after.backups == before.backups;
  }
}
