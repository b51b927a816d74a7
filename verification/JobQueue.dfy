/** job_queue.py: the persistent table of emulator jobs. The class carries out
    the queries; the functions say what each leaves behind, and the protocol is
    stated over them. */
module JobQueue {
  import opened Options

  datatype Status = Pending | Processing | Completed

  datatype Row = Row(id: nat, image: string, status: Status, createdAt: int)

  /** `lastId` is what AUTOINCREMENT remembers: ids are never used again. */
  datatype Db = Db(rows: seq<Row>, lastId: nat)

  ghost predicate Valid(db: Db) {
    && (forall i :: 0 <= i < |db.rows| ==> db.rows[i].id <= db.lastId)
    && (forall i, j :: 0 <= i < j < |db.rows| ==> db.rows[i].id != db.rows[j].id)
  }

  function Push(db: Db, image: string, now: int): Db {
    Db(db.rows + [Row(db.lastId + 1, image, Pending, now)], db.lastId + 1)
  }

  function SetAt(db: Db, i: nat, s: Status): Db
    requires i < |db.rows|
  {
    db.(rows := db.rows[i := db.rows[i].(status := s)])
  }

  /** `UPDATE ... WHERE id = ?` */
  function SetStatus(db: Db, id: nat, s: Status): Db {
    db.(rows := seq(|db.rows|, i requires 0 <= i < |db.rows| =>
      if db.rows[i].id == id then db.rows[i].(status := s) else db.rows[i]))
  }

  /** A row that `fetch_next_job` may select: pending, and none pending is older. */
  predicate MayFetch(db: Db, i: nat) {
    && i < |db.rows| && db.rows[i].status == Pending
    && forall j :: 0 <= j < |db.rows| && db.rows[j].status == Pending ==> db.rows[i].createdAt <= db.rows[j].createdAt
  }

  predicate NonePending(db: Db) { forall i :: 0 <= i < |db.rows| ==> db.rows[i].status != Pending }

  function ActiveIds(db: Db): set<nat> {
    set i | 0 <= i < |db.rows| && db.rows[i].status != Completed :: db.rows[i].id
  }

  /** Progress of a job; statuses only move up. */
  function Rank(s: Status): nat { match s case Pending => 0 case Processing => 1 case Completed => 2 }

  /** Rows stay in place, keep their identity and only move forward. */
  ghost predicate Forward(a: Db, b: Db) {
    && |a.rows| <= |b.rows| && a.lastId <= b.lastId
    && (forall i :: 0 <= i < |a.rows| ==>
          && b.rows[i].id == a.rows[i].id && b.rows[i].createdAt == a.rows[i].createdAt
          && Rank(a.rows[i].status) <= Rank(b.rows[i].status))
    && (forall i :: |a.rows| <= i < |b.rows| ==> a.lastId < b.rows[i].id)
  }

  class Table {
    var rows: seq<Row>
    var lastId: nat

    ghost function View(): Db reads this { Db(rows, lastId) }

    constructor ()
      ensures View() == Db([], 0)
    { rows, lastId := [], 0; }

    method PushJob(image: string, now: int) returns (id: nat)
      requires Valid(View())
      modifies this
      ensures View() == Push(old(View()), image, now)
      ensures Valid(View()) && id == lastId && id !in ActiveIds(old(View())) && id in ActiveIds(View())
    {
      lastId := lastId + 1;
      rows := rows + [Row(lastId, image, Pending, now)];
      id := lastId;
      assert View().rows[|rows| - 1].id == id;
    }

    /** Selects and locks the next pending job in one exclusive transaction. */
    method FetchNextJob() returns (job: Option<Row>)
      modifies this
      ensures job.None? ==> NonePending(old(View())) && View() == old(View())
      ensures job.Some? ==> exists i: nat :: MayFetch(old(View()), i) && job.value == old(rows)[i]
                                        && View() == SetAt(old(View()), i, Processing)
    {
      var best: Option<nat> := None;
      for i := 0 to |rows|
        invariant rows == old(rows) && lastId == old(lastId)
        invariant best.None? ==> forall j :: 0 <= j < i ==> rows[j].status != Pending
        invariant best.Some? ==> best.value < i && rows[best.value].status == Pending
                                 && forall j :: 0 <= j < i && rows[j].status == Pending ==>
                                      rows[best.value].createdAt <= rows[j].createdAt
      {
        if rows[i].status == Pending && (best.None? || rows[i].createdAt < rows[best.value].createdAt) {
          best := Some(i);
        }
      }
      if best.None? { return None; }
      assert MayFetch(old(View()), best.value);
      job := Some(rows[best.value]);
      rows := rows[best.value := rows[best.value].(status := Processing)];
    }

    method MarkJobCompleted(id: nat)
      modifies this
      ensures View() == SetStatus(old(View()), id, Completed)
    {
      for i := 0 to |rows|
        invariant |rows| == |old(rows)| && lastId == old(lastId)
        invariant forall j :: 0 <= j < |rows| ==>
          rows[j] == if j < i && old(rows)[j].id == id then old(rows)[j].(status := Completed) else old(rows)[j]
      {
        if rows[i].id == id {
          rows := rows[i := rows[i].(status := Completed)];
        }
      }
    }

    /** Jobs that are pending or processing, among `ids` if they are given. */
    method GetActiveJobCount(ids: Option<set<nat>>) returns (n: nat)
      requires Valid(View())
      ensures n == |if ids.None? then ActiveIds(View()) else ActiveIds(View()) * ids.value|
    {
      n := 0;
      ghost var seen: set<nat> := {};
      for i := 0 to |rows|
        invariant n == |seen|
        invariant seen == set j | 0 <= j < i && rows[j].status != Completed
                                  && (ids.None? || rows[j].id in ids.value) :: rows[j].id
      {
        if rows[i].status != Completed && (ids.None? || rows[i].id in ids.value) {
          assert rows[i].id !in seen;
          n := n + 1;
          seen := seen + {rows[i].id};
        }
      }
      assert ids.None? ==> seen == ActiveIds(View());
      assert ids.Some? ==> seen == ActiveIds(View()) * ids.value;
    }
  }

  // ----- what one update does -----

  lemma PushForward(db: Db, image: string, now: int)
    requires Valid(db)
    ensures Valid(Push(db, image, now)) && Forward(db, Push(db, image, now))
    ensures ActiveIds(Push(db, image, now)) == ActiveIds(db) + {db.lastId + 1}
    ensures db.lastId + 1 !in ActiveIds(db)
  {
    var d := Push(db, image, now);
    assert d.rows[|db.rows|].id == db.lastId + 1;
    forall id | id in ActiveIds(db) ensures id in ActiveIds(d) {
      var i :| 0 <= i < |db.rows| && db.rows[i].status != Completed && db.rows[i].id == id;
      assert d.rows[i] == db.rows[i];
    }
  }

  lemma FetchForward(db: Db, i: nat)
    requires Valid(db) && MayFetch(db, i)
    ensures Valid(SetAt(db, i, Processing)) && Forward(db, SetAt(db, i, Processing))
    ensures ActiveIds(SetAt(db, i, Processing)) == ActiveIds(db)
  {
    var d := SetAt(db, i, Processing);
    forall id | id in ActiveIds(db) ensures id in ActiveIds(d) {
      var j :| 0 <= j < |db.rows| && db.rows[j].status != Completed && db.rows[j].id == id;
      assert d.rows[j].id == id && d.rows[j].status != Completed;
    }
    forall id | id in ActiveIds(d) ensures id in ActiveIds(db) {
      var j :| 0 <= j < |d.rows| && d.rows[j].status != Completed && d.rows[j].id == id;
      assert db.rows[j].id == id && db.rows[j].status != Completed;
    }
  }

  lemma CompleteForward(db: Db, id: nat)
    requires Valid(db)
    ensures Valid(SetStatus(db, id, Completed)) && Forward(db, SetStatus(db, id, Completed))
    ensures ActiveIds(SetStatus(db, id, Completed)) == ActiveIds(db) - {id}
  {
    var d := SetStatus(db, id, Completed);
    forall x | x in ActiveIds(db) - {id} ensures x in ActiveIds(d) {
      var j :| 0 <= j < |db.rows| && db.rows[j].status != Completed && db.rows[j].id == x;
      assert d.rows[j] == db.rows[j];
    }
    forall x | x in ActiveIds(d) ensures x in ActiveIds(db) - {id} {
      var j :| 0 <= j < |d.rows| && d.rows[j].status != Completed && d.rows[j].id == x;
      assert db.rows[j].id == x && db.rows[j].status != Completed;
    }
  }
}
