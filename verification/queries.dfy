/**
 The read queries over the table: the per-date listing of both bots
 (`WHERE sent_at LIKE '<date>%' ORDER BY sent_at ASC`) and the single-file
 bot's `fetch_last_n` (`ORDER BY id DESC LIMIT n`).

 LIKE is modelled as a plain prefix test, which is what it does for the
 digit-and-hyphen dates the callers pass. Rows with equal sent_at may come
 back in any order, as in SQL.
 */
module Queries {
  import opened Basics
  import opened Text
  import opened Store

  /** `sent_at LIKE '<date>%'`. */
  predicate OnDate(r: Record, date: string) {
    StartsWith(r.sentAt, date)
  }

  predicate Distinct<T(==)>(s: seq<T>) {
    forall i, j | 0 <= i < j < |s| :: s[i] != s[j]
  }

  predicate AllIn(db: Db, ids: seq<nat>) {
    forall i | 0 <= i < |ids| :: ids[i] in db.rows
  }

  /** `ORDER BY sent_at ASC` (BINARY collation). */
  predicate AscendingBySentAt(db: Db, ids: seq<nat>)
    requires AllIn(db, ids)
  {
    forall i, j | 0 <= i < j < |ids| :: LexLe(db.rows[ids[i]].sentAt, db.rows[ids[j]].sentAt)
  }

  /** m has the smallest sent_at of the ids in s. */
  predicate EarliestIn(db: Db, m: nat, s: set<nat>)
    requires s <= db.rows.Keys
  {
    m in s && forall x | x in s :: LexLe(db.rows[m].sentAt, db.rows[x].sentAt)
  }

  lemma LexLeReflexive(a: string)
    ensures LexLe(a, a)
  {
  }

  /** Every non-empty set of rows has one with the smallest sent_at. */
  lemma {:induction false} EarliestExists(db: Db, s: set<nat>)
    requires s != {} && s <= db.rows.Keys
    ensures exists m :: EarliestIn(db, m, s)
    decreases |s|
  {
    var y :| y in s;
    LexLeReflexive(db.rows[y].sentAt);
    if s == {y} {
      assert EarliestIn(db, y, s);
    } else {
      var rest := s - {y};
      EarliestExists(db, rest);
      var m :| EarliestIn(db, m, rest);
      if LexLe(db.rows[y].sentAt, db.rows[m].sentAt) {
        forall x | x in rest
          ensures LexLe(db.rows[y].sentAt, db.rows[x].sentAt)
        {
          LexLeTransitive(db.rows[y].sentAt, db.rows[m].sentAt, db.rows[x].sentAt);
        }
        assert EarliestIn(db, y, s);
      } else {
        LexLeTotal(db.rows[y].sentAt, db.rows[m].sentAt);
        assert EarliestIn(db, m, s);
      }
    }
  }

  /** The ids of the rows dated `date`, each once, in ascending sent_at:
      the row set of `fetch_summaries_by_date`, found by repeatedly taking
      the earliest remaining row. */
  method IdsOnDate(db: Db, date: string) returns (ids: seq<nat>)
    ensures AllIn(db, ids)
    ensures forall id :: id in ids <==> id in db.rows && OnDate(db.rows[id], date)
    ensures Distinct(ids)
    ensures AscendingBySentAt(db, ids)
  {
    var left := set id | id in db.rows && OnDate(db.rows[id], date);
    ids := [];
    while left != {}
      invariant left <= db.rows.Keys
      invariant AllIn(db, ids)
      invariant forall i | 0 <= i < |ids| :: ids[i] !in left
      invariant forall id :: id in ids || id in left <==> id in db.rows && OnDate(db.rows[id], date)
      invariant Distinct(ids)
      invariant AscendingBySentAt(db, ids)
      invariant forall i, x | 0 <= i < |ids| && x in left :: LexLe(db.rows[ids[i]].sentAt, db.rows[x].sentAt)
      decreases |left|
    {
      EarliestExists(db, left);
      var m :| EarliestIn(db, m, left);
      ids := ids + [m];
      left := left - {m};
    }
  }

  /** One row of the newer listing: (id, sent_at, summarized, note). */
  datatype DatedRow = DatedRow(id: nat, sentAt: string, summarized: string, note: Option<string>)

  /** `Database.fetch_summaries_by_date` of bot/database.py: exactly the rows
      dated `date`, each once, projected to (id, sent_at, summarized, note)
      and in ascending sent_at. */
  method FetchSummariesByDate(db: Db, date: string) returns (rows: seq<DatedRow>)
    ensures forall i | 0 <= i < |rows| ::
      && rows[i].id in db.rows
      && OnDate(db.rows[rows[i].id], date)
      && rows[i] == DatedRow(rows[i].id, db.rows[rows[i].id].sentAt, db.rows[rows[i].id].summarized, db.rows[rows[i].id].note)
    ensures forall id | id in db.rows && OnDate(db.rows[id], date) :: exists i | 0 <= i < |rows| :: rows[i].id == id
    ensures forall i, j | 0 <= i < j < |rows| :: rows[i].id != rows[j].id && LexLe(rows[i].sentAt, rows[j].sentAt)
  {
    var ids := IdsOnDate(db, date);
    rows := [];
    var k := 0;
    while k < |ids|
      invariant 0 <= k <= |ids| && |rows| == k
      invariant forall i | 0 <= i < k ::
        rows[i] == DatedRow(ids[i], db.rows[ids[i]].sentAt, db.rows[ids[i]].summarized, db.rows[ids[i]].note)
    {
      var r := db.rows[ids[k]];
      rows := rows + [DatedRow(ids[k], r.sentAt, r.summarized, r.note)];
      k := k + 1;
    }
    forall id | id in db.rows && OnDate(db.rows[id], date)
      ensures exists i | 0 <= i < |rows| :: rows[i].id == id
    {
      var i :| 0 <= i < |ids| && ids[i] == id;
      assert rows[i].id == id;
    }
  }

  /** One row of the single-file bot's listing: (sent_at, telegram_file_id,
      summarized). */
  datatype LegacyRow = LegacyRow(sentAt: string, fileId: string, summarized: string)

  /** The row `id` is dated `date` and projects to `row`. */
  predicate ListedAs(db: Db, date: string, row: LegacyRow, id: nat) {
    && id in db.rows
    && OnDate(db.rows[id], date)
    && row == LegacyRow(db.rows[id].sentAt, db.rows[id].fileId, db.rows[id].summarized)
  }

  ghost predicate ListedOn(db: Db, date: string, row: LegacyRow) {
    exists id :: ListedAs(db, date, row, id)
  }

  /** The single-file bot's `fetch_summaries_by_date`: the same rows in the
      same order, projected to (sent_at, telegram_file_id, summarized). The
      file id identifies the row, since it is unique. */
  method FetchSummariesByDateLegacy(db: Db, date: string) returns (rows: seq<LegacyRow>)
    requires Valid(db)
    ensures forall i | 0 <= i < |rows| :: ListedOn(db, date, rows[i])
    ensures forall id | id in db.rows && OnDate(db.rows[id], date) ::
      exists i | 0 <= i < |rows| :: rows[i].fileId == db.rows[id].fileId
    ensures forall i, j | 0 <= i < j < |rows| :: rows[i].fileId != rows[j].fileId && LexLe(rows[i].sentAt, rows[j].sentAt)
  {
    var ids := IdsOnDate(db, date);
    rows := [];
    var k := 0;
    while k < |ids|
      invariant 0 <= k <= |ids| && |rows| == k
      invariant forall i | 0 <= i < k ::
        rows[i] == LegacyRow(db.rows[ids[i]].sentAt, db.rows[ids[i]].fileId, db.rows[ids[i]].summarized)
    {
      var r := db.rows[ids[k]];
      rows := rows + [LegacyRow(r.sentAt, r.fileId, r.summarized)];
      k := k + 1;
    }
    forall i | 0 <= i < |rows|
      ensures ListedOn(db, date, rows[i])
    {
      assert ListedAs(db, date, rows[i], ids[i]);
    }
    forall id | id in db.rows && OnDate(db.rows[id], date)
      ensures exists i | 0 <= i < |rows| :: rows[i].fileId == db.rows[id].fileId
    {
      var i :| 0 <= i < |ids| && ids[i] == id;
      assert rows[i].fileId == db.rows[id].fileId;
    }
    forall i, j | 0 <= i < j < |rows|
      ensures rows[i].fileId != rows[j].fileId
    {
      assert ids[i] != ids[j];
    }
  }

  function Elements(s: seq<nat>): set<nat> {
    set x | x in s
  }

  /** A sequence without repeats has as many elements as its set. */
  lemma {:induction false} DistinctCardinality(s: seq<nat>)
    requires Distinct(s)
    ensures |Elements(s)| == |s|
  {
    if s != [] {
      var init := s[..|s| - 1];
      var last := s[|s| - 1];
      assert Distinct(init);
      DistinctCardinality(init);
      assert last !in Elements(init);
      assert Elements(s) == Elements(init) + {last};
    } else {
      assert Elements(s) == {};
    }
  }

  lemma SubsetCardinality(a: set<nat>, b: set<nat>)
    requires a <= b
    ensures |a| <= |b|
  {
    assert b == a + (b - a);
  }

  /** The single-file bot's `fetch_last_n`: the ids of the n newest rows,
      newest first; all rows when n is negative (SQLite reads a negative
      LIMIT as no limit). */
  method FetchLastN(db: Db, n: int) returns (ids: seq<nat>)
    requires Valid(db)
    ensures AllIn(db, ids)
    ensures forall i, j | 0 <= i < j < |ids| :: ids[i] > ids[j]
    ensures n >= 0 ==> |ids| == if n < |db.rows| then n else |db.rows|
    ensures n < 0 ==> |ids| == |db.rows|
    ensures forall id, i | id in db.rows && id !in ids && 0 <= i < |ids| :: id < ids[i]
  {
    ids := [];
    var k := db.lastId;
    while k > 0 && (n < 0 || |ids| < n)
      invariant 0 <= k <= db.lastId
      invariant AllIn(db, ids)
      invariant forall i | 0 <= i < |ids| :: ids[i] > k
      invariant forall i, j | 0 <= i < j < |ids| :: ids[i] > ids[j]
      invariant forall id | id in db.rows && id > k :: id in ids
      invariant n >= 0 ==> |ids| <= n
      decreases k
    {
      if k in db.rows {
        ids := ids + [k];
      }
      k := k - 1;
    }
    var taken := Elements(ids);
    assert Distinct(ids);
    DistinctCardinality(ids);
    assert |taken| == |ids|;
    SubsetCardinality(taken, db.rows.Keys);
    assert |ids| <= |db.rows.Keys| == |db.rows|;
    if k == 0 {
      assert taken == db.rows.Keys;
    }
  }
}
