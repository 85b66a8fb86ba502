/**
 * The SQLite-backed command-line tool (main_db.py). Its state is the table
 *
 *   tasks(id INTEGER PRIMARY KEY AUTOINCREMENT, name TEXT NOT NULL,
 *         description TEXT, priority INTEGER NOT NULL,
 *         status TEXT CHECK(status IN ('complete','incomplete')) NOT NULL)
 *
 * modelled as a map from id to the other columns plus the AUTOINCREMENT
 * counter (the table's `sqlite_sequence` entry, the largest id ever issued).
 * Each operation is one statement followed by a commit; a statement that
 * fails leaves the table as it was.
 */
module TaskDb {
  import opened Tables
  import opened Text
  import opened PrioritySort

  /** The columns of one row other than its id. */
  datatype Task = Task(name: string, description: string, priority: int, status: string)

  /** SQLite stores INTEGER values, ids included, as signed 64-bit numbers. */
  const MinInt64: int := -0x8000_0000_0000_0000
  const MaxInt64: int := 0x7fff_ffff_ffff_ffff

  /** Python's sqlite3 can bind an `int` parameter only inside this range (OverflowError otherwise). */
  predicate FitsInt64(x: int)
  {
    MinInt64 <= x <= MaxInt64
  }

  /** The table's CHECK constraint on `status`. */
  predicate AllowedStatus(status: string)
  {
    status == "complete" || status == "incomplete"
  }

  /** What a statement that changes the table did. */
  datatype CreateOutcome =
    | Created(id: int)
    | CreateOverflow      // OverflowError: the priority does not fit a 64-bit INTEGER
    | CreateFull          // SQLITE_FULL: AUTOINCREMENT has already issued the largest id
    | CreateCheckFailed   // IntegrityError: the CHECK constraint rejected the status

  datatype StatusOutcome =
    | StatusOverflow      // OverflowError binding the id
    | StatusRowMissing
    | AlreadyMarked
    | StatusCheckFailed   // IntegrityError from the UPDATE
    | StatusChanged

  datatype DeleteOutcome =
    | DeleteOverflow      // OverflowError binding the id
    | DeleteRowMissing
    | Declined
    | Deleted

  function PriorityOf(row: Row<Task>): int
  {
    row.fields.priority
  }

  class TaskTable {
    /** The rows of `tasks`, by id. */
    var rows: map<int, Task>
    /** The AUTOINCREMENT counter: the largest id the table has ever issued (0 before the first). */
    var lastId: int
    /** Every id the table has ever issued. */
    ghost var Issued: set<int>

    ghost predicate Valid()
      reads this
    {
      && 0 <= lastId <= MaxInt64
      && (forall id :: id in Issued <==> 1 <= id <= lastId)
      && (forall id :: id in rows ==> id in Issued)
      && (forall id :: id in rows ==> AllowedStatus(rows[id].status) && FitsInt64(rows[id].priority))
    }

    /** `CREATE TABLE IF NOT EXISTS tasks (...)` on a new database file. */
    constructor ()
      ensures Valid() && rows == map[] && lastId == 0 && Issued == {}
    {
      rows := map[];
      lastId := 0;
      Issued := {};
    }

    /**
     * `create`: `INSERT INTO tasks (name, description, priority, status)`.
     * The new row's id is one more than the largest id ever issued, so it
     * differs from every id the table has issued before, deleted ones
     * included. A priority outside 64 bits, an exhausted id range or a status
     * the CHECK constraint rejects insert nothing.
     */
    method Create(name: string, description: string, priority: int, status: string)
      returns (outcome: CreateOutcome)
      requires Valid()
      modifies this
      ensures Valid()
      ensures outcome.Created? <==> FitsInt64(priority) && old(lastId) < MaxInt64 && AllowedStatus(status)
      ensures outcome == CreateOverflow <==> !FitsInt64(priority)
      ensures outcome == CreateFull <==> FitsInt64(priority) && old(lastId) == MaxInt64
      ensures outcome == CreateCheckFailed <==> FitsInt64(priority) && old(lastId) < MaxInt64 && !AllowedStatus(status)
      ensures outcome.Created? ==>
                && outcome.id !in old(Issued)
                && outcome.id == old(lastId) + 1
                && Issued == old(Issued) + {outcome.id}
                && rows == old(rows)[outcome.id := Task(name, description, priority, status)]
      ensures !outcome.Created? ==> rows == old(rows) && lastId == old(lastId) && Issued == old(Issued)
    {
      if !FitsInt64(priority) {
        return CreateOverflow;
      }
      if lastId == MaxInt64 {
        return CreateFull;
      }
      if !AllowedStatus(status) {
        return CreateCheckFailed;
      }
      lastId := lastId + 1;
      Issued := Issued + {lastId};
      rows := rows[lastId := Task(name, description, priority, status)];
      outcome := Created(lastId);
    }

    /**
     * `task_status`: `SELECT status ... WHERE id = ?`, then, only when the row
     * exists and its status differs, `UPDATE tasks SET status = ? WHERE id = ?`,
     * which changes that one column of that one row.
     */
    method TaskStatus(index: int, status: string) returns (outcome: StatusOutcome)
      requires Valid()
      modifies this
      ensures Valid() && lastId == old(lastId) && Issued == old(Issued)
      ensures outcome == StatusOverflow <==> !FitsInt64(index)
      ensures outcome == StatusRowMissing <==> FitsInt64(index) && index !in old(rows)
      ensures outcome == AlreadyMarked <==> index in old(rows) && old(rows)[index].status == status
      ensures outcome == StatusChanged <==>
                index in old(rows) && old(rows)[index].status != status && AllowedStatus(status)
      ensures outcome != StatusChanged ==> rows == old(rows)
      ensures outcome == StatusChanged ==> rows == old(rows)[index := old(rows)[index].(status := status)]
    {
      if !FitsInt64(index) {
        return StatusOverflow;
      }
      if index !in rows {
        return StatusRowMissing;
      }
      if rows[index].status == status {
        return AlreadyMarked;
      }
      if !AllowedStatus(status) {
        return StatusCheckFailed;
      }
      rows := rows[index := rows[index].(status := status)];
      outcome := StatusChanged;
    }

    /**
     * `delete`, with the answer to the confirmation prompt as a parameter:
     * `DELETE FROM tasks WHERE id = ?` runs only for an existing row and an
     * answer that reads "yes" in any letter case, and removes that row alone.
     */
    method Delete(index: int, answer: string) returns (outcome: DeleteOutcome)
      requires Valid()
      modifies this
      ensures Valid() && lastId == old(lastId) && Issued == old(Issued)
      ensures outcome == DeleteOverflow <==> !FitsInt64(index)
      ensures outcome == DeleteRowMissing <==> FitsInt64(index) && index !in old(rows)
      ensures outcome == Deleted <==> index in old(rows) && Lower(answer) == "yes"
      ensures outcome == Deleted ==> rows == old(rows) - {index}
      ensures outcome != Deleted ==> rows == old(rows)
    {
      if !FitsInt64(index) {
        return DeleteOverflow;
      }
      if index !in rows {
        return DeleteRowMissing;
      }
      if Lower(answer) == "yes" {
        rows := rows - {index};
        outcome := Deleted;
      } else {
        outcome := Declined;
      }
    }

    /** `show`: `SELECT id, name, description, priority, status FROM tasks`. */
    method Show() returns (result: seq<Row<Task>>)
      ensures Enumerates(result, rows)
    {
      result := Rows(rows);
    }

    /**
     * `sort_by`: every row, `ORDER BY priority ASC` for "ascending" and
     * `ORDER BY priority DESC` for any other string. The order of rows with
     * equal priority is left to SQLite.
     */
    method SortBy(order: string) returns (result: seq<Row<Task>>)
      ensures Enumerates(result, rows)
      ensures SortedBy(result, PriorityOf, order != "ascending")
    {
      var all := Rows(rows);
      var descending := order != "ascending";
      SortPermutes(all, PriorityOf, descending);
      SortSorted(all, PriorityOf, descending);
      result := Sort(all, PriorityOf, descending);
    }
  }
}
