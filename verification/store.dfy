/**
 The `voice_messages` table as an in-memory map from the AUTOINCREMENT id to
 the row, together with the largest id ever handed out (SQLite's
 `sqlite_sequence` entry for the table). `telegram_file_id` is UNIQUE.

 Both bots share the table shape; the single-file bot has no `note` column,
 which the model represents by never setting `note`. The two bots differ in
 which columns an upsert on an existing file id overwrites (`ConflictPolicy`).
 */
module Store {
  import opened Basics
  import opened Text

  /** One row: telegram_file_id, text, summarized, note, sent_at, user_id,
      username. */
  datatype Record = Record(
    fileId: string,
    text: string,
    summarized: string,
    note: Option<string>,
    sentAt: string,
    userId: int,
    username: Option<string>)

  /** The largest int that sqlite3 binds as an INTEGER parameter; a larger
      one raises OverflowError before the statement runs. */
  const MaxInteger: nat := 0x7FFF_FFFF_FFFF_FFFF

  /** The table and its AUTOINCREMENT counter. */
  datatype Db = Db(rows: map<nat, Record>, lastId: nat)

  const Empty := Db(map[], 0)

  /** Every id was handed out by the counter, and no two rows share a file
      id (the UNIQUE constraint). */
  ghost predicate Valid(db: Db) {
    && (forall id | id in db.rows :: 1 <= id <= db.lastId)
    && (forall a, b | a in db.rows && b in db.rows && db.rows[a].fileId == db.rows[b].fileId :: a == b)
  }

  lemma EmptyValid()
    ensures Valid(Empty)
  {
  }

  predicate HasFile(db: Db, fileId: string) {
    exists id | id in db.rows :: db.rows[id].fileId == fileId
  }

  /** The id of the row holding fileId, if any (`WHERE telegram_file_id = ?`). */
  function Owner(db: Db, fileId: string): (r: Option<nat>)
    requires Valid(db)
    ensures r.Some? <==> HasFile(db, fileId)
    ensures r.Some? ==> r.value in db.rows && db.rows[r.value].fileId == fileId
  {
    if HasFile(db, fileId) then
      var id :| id in db.rows && db.rows[id].fileId == fileId;
      Some(id)
    else None
  }

  /** Which columns `ON CONFLICT(telegram_file_id) DO UPDATE` replaces:
      bot/database.py replaces text, summarized, sent_at, user_id and
      username; the single-file bot only text, summarized and sent_at. */
  datatype ConflictPolicy = OverwriteAll | KeepAuthor

  /** The values of one `save_message` call. */
  datatype Incoming = Incoming(
    fileId: string,
    text: string,
    summary: string,
    sentAt: string,
    userId: int,
    username: Option<string>)

  /** The row an upsert leaves behind for an existing row `prev`. */
  function Updated(prev: Record, m: Incoming, policy: ConflictPolicy): (r: Record)
    ensures r.fileId == prev.fileId && r.note == prev.note
    ensures r.text == m.text && r.summarized == m.summary && r.sentAt == m.sentAt
    ensures policy.OverwriteAll? ==> r.userId == m.userId && r.username == m.username
    ensures policy.KeepAuthor? ==> r.userId == prev.userId && r.username == prev.username
  {
    match policy
    case OverwriteAll =>
      prev.(text := m.text, summarized := m.summary, sentAt := m.sentAt,
           userId := m.userId, username := m.username)
    case KeepAuthor =>
      prev.(text := m.text, summarized := m.summary, sentAt := m.sentAt)
  }

  /** The store after a save and the id `RETURNING id` yields. */
  datatype Saved = Saved(db: Db, id: nat)

  /** `save_message`: insert a new row with the next id and no note, or
      update the row that already holds the file id in place. SQLite draws
      the next AUTOINCREMENT value before it meets the UNIQUE conflict and
      records it in `sqlite_sequence` all the same, so the counter advances
      on both paths. */
  function Save(db: Db, m: Incoming, policy: ConflictPolicy): (r: Saved)
    requires Valid(db)
    ensures Valid(r.db)
    ensures r.id in r.db.rows && r.db.rows[r.id].fileId == m.fileId
    ensures r.db.rows[r.id].text == m.text && r.db.rows[r.id].summarized == m.summary
    ensures r.db.rows[r.id].sentAt == m.sentAt
    ensures r.db.rows.Keys == db.rows.Keys + {r.id}
    ensures forall id | id in db.rows && id != r.id :: r.db.rows[id] == db.rows[id]
    ensures !HasFile(db, m.fileId) ==>
      && r.id == db.lastId + 1 == r.db.lastId
      && r.id !in db.rows
      && r.db.rows[r.id] == Record(m.fileId, m.text, m.summary, None, m.sentAt, m.userId, m.username)
    ensures HasFile(db, m.fileId) ==>
      && r.id in db.rows && db.rows[r.id].fileId == m.fileId
      && r.db.lastId == db.lastId + 1
      && r.db.rows[r.id] == Updated(db.rows[r.id], m, policy)
  {
    match Owner(db, m.fileId)
    case None =>
      var id := db.lastId + 1;
      Saved(Db(db.rows[id := Record(m.fileId, m.text, m.summary, None, m.sentAt, m.userId, m.username)], id), id)
    case Some(id) =>
      Saved(Db(db.rows[id := Updated(db.rows[id], m, policy)], db.lastId + 1), id)
  }

  /** A modifying statement's result: the store after it and whether
      `rowcount > 0`. */
  datatype Change = Change(db: Db, hit: bool)

  /** `delete_record_by_id`. */
  function DeleteById(db: Db, id: int): (r: Change)
    requires Valid(db)
    ensures Valid(r.db)
    ensures r.hit <==> id >= 0 && id as nat in db.rows
    ensures r.db.lastId == db.lastId
    ensures id >= 0 ==> r.db.rows.Keys == db.rows.Keys - {id as nat}
    ensures id < 0 ==> r.db == db
    ensures forall k | k in r.db.rows :: r.db.rows[k] == db.rows[k]
  {
    if id >= 0 && id as nat in db.rows then Change(Db(db.rows - {id as nat}, db.lastId), true)
    else Change(db, false)
  }

  /** `delete_record_by_telegram_file_id`. */
  function DeleteByFileId(db: Db, fileId: string): (r: Change)
    requires Valid(db)
    ensures Valid(r.db)
    ensures r.hit <==> HasFile(db, fileId)
    ensures !HasFile(r.db, fileId)
    ensures r.db.lastId == db.lastId
    ensures forall k | k in db.rows && db.rows[k].fileId != fileId :: k in r.db.rows && r.db.rows[k] == db.rows[k]
    ensures forall k | k in r.db.rows :: k in db.rows && r.db.rows[k] == db.rows[k]
    ensures !r.hit ==> r.db == db
    ensures r.hit ==> |r.db.rows| == |db.rows| - 1
  {
    match Owner(db, fileId)
    case None => Change(db, false)
    case Some(id) => Change(Db(db.rows - {id}, db.lastId), true)
  }

  /** The UPDATE statements of the two dialog choices. */
  datatype Column = Summarized | Note

  /** `UPDATE voice_messages SET <column> = ? WHERE id = ?`:
      `update_summary` for Summarized, `add_note_to_record` for Note. */
  function SetColumn(db: Db, id: int, column: Column, value: string): (r: Change)
    requires Valid(db)
    ensures Valid(r.db)
    ensures r.hit <==> id >= 0 && id as nat in db.rows
    ensures !r.hit ==> r.db == db
    ensures r.db.lastId == db.lastId && r.db.rows.Keys == db.rows.Keys
    ensures forall k | k in db.rows && k != id :: r.db.rows[k] == db.rows[k]
    ensures r.hit && column.Summarized? ==> r.db.rows[id] == db.rows[id].(summarized := value)
    ensures r.hit && column.Note? ==> r.db.rows[id] == db.rows[id].(note := Some(value))
  {
    if id >= 0 && id as nat in db.rows then
      var prev := db.rows[id];
      var row := match column
        case Summarized => prev.(summarized := value)
        case Note => prev.(note := Some(value));
      Change(Db(db.rows[id as nat := row], db.lastId), true)
    else Change(db, false)
  }

  /** `fetch_record_by_id`. */
  function FetchById(db: Db, id: int): (r: Option<Record>)
    ensures r.Some? <==> id >= 0 && id as nat in db.rows
    ensures r.Some? ==> r.value == db.rows[id]
  {
    if id >= 0 && id as nat in db.rows then Some(db.rows[id]) else None
  }

  /** Saving a file id a second time hits the same row: the id the first
      save returned is returned again and the table does not grow, but the
      counter still moves on. */
  lemma SaveSameFileKeepsId(db: Db, m1: Incoming, m2: Incoming, policy: ConflictPolicy)
    requires Valid(db)
    requires m1.fileId == m2.fileId
    ensures var s1 := Save(db, m1, policy);
      var s2 := Save(s1.db, m2, policy);
      s2.id == s1.id && s2.db.rows.Keys == s1.db.rows.Keys && s2.db.lastId == s1.db.lastId + 1
  {
    var s1 := Save(db, m1, policy);
    assert HasFile(s1.db, m2.fileId);
  }

  /** A re-save burns an id: saving a new file A, saving A again and then a
      new file B gives B the id two above A's, not one. */
  lemma ResaveSkipsAnId(db: Db, a1: Incoming, a2: Incoming, b: Incoming, policy: ConflictPolicy)
    requires Valid(db)
    requires a1.fileId == a2.fileId != b.fileId
    requires !HasFile(db, a1.fileId) && !HasFile(db, b.fileId)
    ensures var s1 := Save(db, a1, policy);
      var s2 := Save(s1.db, a2, policy);
      var s3 := Save(s2.db, b, policy);
      s2.id == s1.id && s3.id == s1.id + 2
  {
  }

  /** After a save, the file id is owned by the row the save reported. */
  lemma OwnerAfterSave(db: Db, m: Incoming, policy: ConflictPolicy)
    requires Valid(db)
    ensures Owner(Save(db, m, policy).db, m.fileId) == Some(Save(db, m, policy).id)
  {
  }

  /** A new row's id is larger than every id in the table before it. */
  lemma NewIdIsFresh(db: Db, m: Incoming, policy: ConflictPolicy)
    requires Valid(db)
    requires !HasFile(db, m.fileId)
    ensures forall k | k in db.rows :: k < Save(db, m, policy).id
  {
  }

  /** The two conflict policies differ only in user_id and username. */
  lemma PoliciesAgreeButOnAuthor(db: Db, m: Incoming)
    requires Valid(db)
    ensures var a := Save(db, m, OverwriteAll);
      var b := Save(db, m, KeepAuthor);
      && a.id == b.id && a.db.lastId == b.db.lastId && a.db.rows.Keys == b.db.rows.Keys
      && (forall k | k in a.db.rows ::
           a.db.rows[k].(userId := 0, username := None) == b.db.rows[k].(userId := 0, username := None))
  {
  }

  /** Deleting what was just saved by its id removes exactly that row again;
      for a new file id the table is back to its earlier rows. */
  lemma SaveThenDelete(db: Db, m: Incoming, policy: ConflictPolicy)
    requires Valid(db)
    requires !HasFile(db, m.fileId)
    ensures var s := Save(db, m, policy);
      var d := DeleteById(s.db, s.id);
      d.hit && d.db.rows == db.rows
  {
    var s := Save(db, m, policy);
    var d := DeleteById(s.db, s.id);
    assert d.db.rows == db.rows;
  }

  /** A file id that was deleted is gone for good: a second delete of it
      reports no row. */
  lemma DeleteByFileIdTwice(db: Db, fileId: string)
    requires Valid(db)
    ensures !DeleteByFileId(DeleteByFileId(db, fileId).db, fileId).hit
  {
  }

  /** Setting a column and reading the row back gives the value written,
      and the other column is untouched. */
  lemma SetColumnThenFetch(db: Db, id: int, column: Column, value: string)
    requires Valid(db)
    requires FetchById(db, id).Some?
    ensures var row := FetchById(SetColumn(db, id, column, value).db, id);
      && row.Some?
      && (column.Summarized? ==> row.value.summarized == value && row.value.note == db.rows[id].note)
      && (column.Note? ==> row.value.note == Some(value) && row.value.summarized == db.rows[id].summarized)
  {
  }
}
