/**
 * The `sessions` table as values: its rows in insertion (rowid) order, the `Session`
 * record a query returns, the row changes each UPDATE makes, the orders of the list
 * queries, and the retention rule of the prune. Timestamps are integers (seconds)
 * supplied by the caller in place of the database clock.
 */
module SessionTable {
  import opened Wrappers

  /** Session statuses (`SessionStatus` is a string type, so any string can be stored). */
  const Waiting := "waiting"
  const Working := "working"
  const Completed := "completed"
  const Abandoned := "abandoned"
  const Killed := "killed"
  const Deleted := "deleted"
  const Restored := "restored"

  /** How long a soft-deleted session is kept before a prune removes it: 7 days. */
  const RetentionSeconds: int := 7 * 24 * 60 * 60

  /** The `Session` record a query returns. */
  datatype Session = Session(
    id: string,
    createdAt: int,
    updatedAt: int,
    workflowType: string,
    status: string,
    workingDirectory: string,
    taskDescription: string,
    prefix: string,
    claudeSessionId: string,
    tmuxSession: string,
    tmuxWindow: int,
    tmuxPane: int,
    outputFile: string,
    pid: int,
    deletedAt: Option<int>)

  /** A stored row: like a `Session`, except that the pid column may be NULL. */
  datatype Record = Record(
    id: string,
    createdAt: int,
    updatedAt: int,
    workflowType: string,
    status: string,
    workingDirectory: string,
    taskDescription: string,
    prefix: string,
    claudeSessionId: string,
    tmuxSession: string,
    tmuxWindow: int,
    tmuxPane: int,
    outputFile: string,
    pid: Option<int>,
    deletedAt: Option<int>)

  /** `scanSession`: a row read into a `Session`; a NULL pid reads as 0. */
  function Scan(r: Record): (s: Session)
    ensures s.id == r.id && s.status == r.status && s.deletedAt == r.deletedAt
    ensures s.pid == (if r.pid.Some? then r.pid.value else 0)
  {
    Session(r.id, r.createdAt, r.updatedAt, r.workflowType, r.status, r.workingDirectory,
            r.taskDescription, r.prefix, r.claudeSessionId, r.tmuxSession, r.tmuxWindow,
            r.tmuxPane, r.outputFile, if r.pid.Some? then r.pid.value else 0, r.deletedAt)
  }

  /**
   * The row `CreateSession` inserts: the twelve columns it names, from the record (the
   * pid is written even when it is 0), and the column defaults for the timestamps.
   */
  function NewRecord(s: Session, now: int): Record
  {
    Record(s.id, now, now, s.workflowType, s.status, s.workingDirectory, s.taskDescription,
           s.prefix, s.claudeSessionId, s.tmuxSession, s.tmuxWindow, s.tmuxPane, s.outputFile,
           Some(s.pid), None)
  }

  /** Reading back an inserted row gives the record, with the insert's timestamps. */
  lemma ScanNewRecord(s: Session, now: int)
    ensures Scan(NewRecord(s, now)) == s.(createdAt := now, updatedAt := now, deletedAt := None)
  {
  }

  /** The id is the table's key: no two rows share one. */
  ghost predicate UniqueIds(rows: seq<Record>)
  {
    forall i, j :: 0 <= i < |rows| && 0 <= j < |rows| && i != j ==> rows[i].id != rows[j].id
  }

  /** The position of the row with the given id. */
  function FindIndex(rows: seq<Record>, id: string): (k: Option<nat>)
    ensures k.None? <==> forall j :: 0 <= j < |rows| ==> rows[j].id != id
    ensures k.Some? ==> k.value < |rows| && rows[k.value].id == id
    ensures k.Some? ==> forall j :: 0 <= j < k.value ==> rows[j].id != id
  {
    if |rows| == 0 then None
    else if rows[0].id == id then Some(0)
    else match FindIndex(rows[1..], id)
      case None => None
      case Some(k) => Some(k + 1)
  }

  /** `SELECT ... WHERE id = ?` read into a `Session`: nil when no row has the id. */
  function Find(rows: seq<Record>, id: string): Option<Session>
  {
    match FindIndex(rows, id)
    case None => None
    case Some(k) => Some(Scan(rows[k]))
  }

  /** With unique ids, looking up a row's id finds that row. */
  lemma FindAt(rows: seq<Record>, k: nat)
    requires UniqueIds(rows) && k < |rows|
    ensures Find(rows, rows[k].id) == Some(Scan(rows[k]))
  {
  }

  /** The column changes of the single-row UPDATE statements. */
  datatype Change =
    | SetStatus(status: string)
    | SetPid(pid: int)
    | SetClaudeSessionId(claudeSessionId: string)
    | SetColumns(session: Session)
    | MarkDeleted
    | ClearDeleted

  /**
   * One row after an UPDATE: every statement stamps `updated_at` and keeps the id and
   * `created_at`; only soft-delete and restore touch `deleted_at`.
   */
  function Apply(r: Record, c: Change, now: int): (r': Record)
    ensures r'.id == r.id && r'.createdAt == r.createdAt && r'.updatedAt == now
    ensures !(c.MarkDeleted? || c.ClearDeleted?) ==> r'.deletedAt == r.deletedAt
  {
    match c
    case SetStatus(st) => r.(updatedAt := now, status := st)
    case SetPid(p) => r.(updatedAt := now, pid := Some(p))
    case SetClaudeSessionId(cid) => r.(updatedAt := now, claudeSessionId := cid)
    case SetColumns(s) =>
      r.(updatedAt := now, workflowType := s.workflowType, status := s.status,
         workingDirectory := s.workingDirectory, taskDescription := s.taskDescription,
         prefix := s.prefix, claudeSessionId := s.claudeSessionId, tmuxSession := s.tmuxSession,
         tmuxWindow := s.tmuxWindow, tmuxPane := s.tmuxPane, outputFile := s.outputFile,
         pid := Some(s.pid))
    case MarkDeleted => r.(updatedAt := now, status := Deleted, deletedAt := Some(now))
    case ClearDeleted => r.(updatedAt := now, status := Restored, deletedAt := None)
  }

  /** `UPDATE sessions SET ... WHERE id = ?`: the change applied to the rows with the id. */
  function Update(rows: seq<Record>, id: string, c: Change, now: int): (rows': seq<Record>)
    ensures |rows'| == |rows|
    ensures forall k :: 0 <= k < |rows| && rows[k].id != id ==> rows'[k] == rows[k]
    ensures forall k :: 0 <= k < |rows| ==> rows'[k].id == rows[k].id
  {
    seq(|rows|, k requires 0 <= k < |rows| => if rows[k].id == id then Apply(rows[k], c, now) else rows[k])
  }

  /** An UPDATE keeps the key unique. */
  lemma UpdateUnique(rows: seq<Record>, id: string, c: Change, now: int)
    requires UniqueIds(rows)
    ensures UniqueIds(Update(rows, id, c, now))
  {
  }

  /** An UPDATE of one id leaves every other session as it was. */
  lemma UpdateOthers(rows: seq<Record>, id: string, c: Change, now: int, other: string)
    requires other != id
    ensures Find(Update(rows, id, c, now), other) == Find(rows, other)
  {
    var rows' := Update(rows, id, c, now);
    match FindIndex(rows, other)
    case None =>
    case Some(k) =>
      assert FindIndex(rows', other) == Some(k);
  }

  /** After an UPDATE, the session with the id reads as its old value with the change applied. */
  lemma UpdateFound(rows: seq<Record>, id: string, c: Change, now: int)
    requires UniqueIds(rows)
    ensures Find(rows, id).None? ==> Update(rows, id, c, now) == rows
    ensures Find(rows, id).Some? ==>
      Find(Update(rows, id, c, now), id) == Some(Scan(Apply(rows[FindIndex(rows, id).value], c, now)))
  {
    var rows' := Update(rows, id, c, now);
    match FindIndex(rows, id)
    case None =>
      assert rows' == rows;
    case Some(k) =>
      assert FindIndex(rows', id) == Some(k);
  }

  /** `UpdateSessionStatus` changes the status and `updated_at` of its session and nothing else. */
  lemma UpdateStatusChangesOnlyStatus(rows: seq<Record>, id: string, status: string, now: int)
    requires UniqueIds(rows) && Find(rows, id).Some?
    ensures Find(Update(rows, id, SetStatus(status), now), id)
         == Some(Find(rows, id).value.(status := status, updatedAt := now))
  {
    UpdateFound(rows, id, SetStatus(status), now);
  }

  /** `UpdateSessionPID` changes the pid and `updated_at` of its session and nothing else. */
  lemma UpdatePidChangesOnlyPid(rows: seq<Record>, id: string, pid: int, now: int)
    requires UniqueIds(rows) && Find(rows, id).Some?
    ensures Find(Update(rows, id, SetPid(pid), now), id)
         == Some(Find(rows, id).value.(pid := pid, updatedAt := now))
  {
    UpdateFound(rows, id, SetPid(pid), now);
  }

  /** `UpdateClaudeSessionID` changes the agent's session id and `updated_at` and nothing else. */
  lemma UpdateClaudeIdChangesOnlyClaudeId(rows: seq<Record>, id: string, cid: string, now: int)
    requires UniqueIds(rows) && Find(rows, id).Some?
    ensures Find(Update(rows, id, SetClaudeSessionId(cid), now), id)
         == Some(Find(rows, id).value.(claudeSessionId := cid, updatedAt := now))
  {
    UpdateFound(rows, id, SetClaudeSessionId(cid), now);
  }

  /** `UpdateSession` overwrites every column but the id, `created_at` and `deleted_at`. */
  lemma UpdateSessionOverwrites(rows: seq<Record>, s: Session, now: int)
    requires UniqueIds(rows) && Find(rows, s.id).Some?
    ensures Find(Update(rows, s.id, SetColumns(s), now), s.id)
         == Some(s.(createdAt := Find(rows, s.id).value.createdAt, updatedAt := now,
                    deletedAt := Find(rows, s.id).value.deletedAt))
  {
    UpdateFound(rows, s.id, SetColumns(s), now);
  }

  /** Soft delete marks the session deleted at `now`; restore marks it restored and clears the mark. */
  lemma SoftDeleteThenRestore(rows: seq<Record>, id: string, t1: int, t2: int)
    requires UniqueIds(rows) && Find(rows, id).Some?
    ensures Find(Update(rows, id, MarkDeleted, t1), id).value.status == Deleted
    ensures Find(Update(rows, id, MarkDeleted, t1), id).value.deletedAt == Some(t1)
    ensures Find(Update(Update(rows, id, MarkDeleted, t1), id, ClearDeleted, t2), id)
         == Some(Find(rows, id).value.(status := Restored, updatedAt := t2, deletedAt := None))
  {
    UpdateFound(rows, id, MarkDeleted, t1);
    var rows1 := Update(rows, id, MarkDeleted, t1);
    UpdateUnique(rows, id, MarkDeleted, t1);
    UpdateFound(rows1, id, ClearDeleted, t2);
  }

  /** `DELETE FROM sessions WHERE id = ?`. */
  function RemoveId(rows: seq<Record>, id: string): (rows': seq<Record>)
    ensures forall r :: r in rows' <==> r in rows && r.id != id
  {
    if rows == [] then []
    else if rows[0].id == id then RemoveId(rows[1..], id)
    else [rows[0]] + RemoveId(rows[1..], id)
  }

  /** The delete keeps the order of the remaining rows: it works piece by piece. */
  lemma {:induction false} RemoveIdAppend(a: seq<Record>, b: seq<Record>, id: string)
    ensures RemoveId(a + b, id) == RemoveId(a, id) + RemoveId(b, id)
    decreases |a|
  {
    if a == [] {
      assert a + b == b;
    } else {
      assert (a + b)[1..] == a[1..] + b;
      RemoveIdAppend(a[1..], b, id);
    }
  }

  /** After a hard delete the id is gone. */
  lemma RemoveIdGone(rows: seq<Record>, id: string)
    ensures Find(RemoveId(rows, id), id) == None
  {
    var rows' := RemoveId(rows, id);
    forall j | 0 <= j < |rows'| ensures rows'[j].id != id {
      assert rows'[j] in rows';
    }
  }

  /** A hard delete leaves every other session as it was. */
  lemma {:induction false} RemoveIdOthers(rows: seq<Record>, id: string, other: string)
    requires other != id
    ensures Find(RemoveId(rows, id), other) == Find(rows, other)
  {
    if rows != [] {
      RemoveIdOthers(rows[1..], id, other);
      var tail := RemoveId(rows[1..], id);
      if rows[0].id != id {
        assert RemoveId(rows, id) == [rows[0]] + tail;
        assert ([rows[0]] + tail)[1..] == tail;
        if rows[0].id != other {
          match FindIndex(tail, other)
          case None =>
          case Some(k) =>
            assert FindIndex([rows[0]] + tail, other) == Some(k + 1);
        }
      }
    }
  }

  /** A hard delete keeps the key unique. */
  lemma {:induction false} RemoveIdUnique(rows: seq<Record>, id: string)
    requires UniqueIds(rows)
    ensures UniqueIds(RemoveId(rows, id))
  {
    if rows != [] {
      assert UniqueIds(rows[1..]) by {
        forall i, j | 0 <= i < |rows[1..]| && 0 <= j < |rows[1..]| && i != j
          ensures rows[1..][i].id != rows[1..][j].id
        {
          assert rows[1..][i] == rows[i + 1] && rows[1..][j] == rows[j + 1];
        }
      }
      RemoveIdUnique(rows[1..], id);
      var tail := RemoveId(rows[1..], id);
      if rows[0].id != id {
        forall r | r in tail ensures r.id != rows[0].id {
          var k :| 0 <= k < |rows[1..]| && rows[1..][k] == r;
          assert rows[k + 1] == r;
        }
      }
    }
  }

  /** A row the prune removes: soft-deleted more than the retention period before `now`. */
  predicate Prunable(r: Record, now: int)
  {
    r.status == Deleted && r.deletedAt.Some? && r.deletedAt.value < now - RetentionSeconds
  }

  /** `PruneDeletedSessions`'s DELETE: the rows that are not prunable, in their order. */
  function Prune(rows: seq<Record>, now: int): (rows': seq<Record>)
    ensures forall r :: r in rows' <==> r in rows && !Prunable(r, now)
    ensures |rows'| <= |rows|
  {
    if rows == [] then []
    else if Prunable(rows[0], now) then Prune(rows[1..], now)
    else [rows[0]] + Prune(rows[1..], now)
  }

  /** The prune keeps the order of the remaining rows: it works piece by piece. */
  lemma {:induction false} PruneAppend(a: seq<Record>, b: seq<Record>, now: int)
    ensures Prune(a + b, now) == Prune(a, now) + Prune(b, now)
    decreases |a|
  {
    if a == [] {
      assert a + b == b;
    } else {
      assert (a + b)[1..] == a[1..] + b;
      PruneAppend(a[1..], b, now);
    }
  }

  /** The number of rows the prune removes. */
  function PruneCount(rows: seq<Record>, now: int): nat
  {
    if rows == [] then 0 else (if Prunable(rows[0], now) then 1 else 0) + PruneCount(rows[1..], now)
  }

  /** The prune removes exactly the prunable rows, so the table shrinks by their count. */
  lemma {:induction false} PruneRemovesCount(rows: seq<Record>, now: int)
    ensures |Prune(rows, now)| == |rows| - PruneCount(rows, now)
  {
    if rows != [] {
      PruneRemovesCount(rows[1..], now);
    }
  }

  /** A second prune at the same time removes nothing. */
  lemma {:induction false} PruneIdempotent(rows: seq<Record>, now: int)
    ensures PruneCount(Prune(rows, now), now) == 0
    ensures Prune(Prune(rows, now), now) == Prune(rows, now)
  {
    if rows != [] {
      PruneIdempotent(rows[1..], now);
      if !Prunable(rows[0], now) {
        var p := Prune(rows[1..], now);
        assert ([rows[0]] + p)[1..] == p;
      }
    }
  }

  /** The prune never removes a session that is not soft-deleted, whatever its age. */
  lemma PruneKeepsUndeleted(rows: seq<Record>, now: int, r: Record)
    requires r in rows && r.status != Deleted
    ensures r in Prune(rows, now)
  {
  }

  /** The query filters: every row, not deleted (no status given), or a given status. */
  datatype Filter = Everything | NotDeleted | HasStatus(status: string)

  predicate Matches(r: Record, f: Filter)
  {
    match f
    case Everything => true
    case NotDeleted => r.status != Deleted
    case HasStatus(s) => r.status == s
  }

  /** `ListSessions`'s filter: the empty status means every session that is not deleted. */
  function StatusFilter(status: string): Filter
  {
    if status != "" then HasStatus(status) else NotDeleted
  }

  /** The ordering column of a list query: `created_at`, or `deleted_at` for the trash. */
  datatype OrderColumn = ByCreatedAt | ByDeletedAt

  function SortKey(r: Record, c: OrderColumn): Option<int>
  {
    if c == ByCreatedAt then Some(r.createdAt) else r.deletedAt
  }

  /** SQLite's ascending order on a nullable integer column: NULL comes first. */
  predicate KeyBelow(a: Option<int>, b: Option<int>)
  {
    (a.None? && b.Some?) || (a.Some? && b.Some? && a.value < b.value)
  }

  /** Under `ORDER BY c DESC, rowid DESC`, the row at position i is listed before the row at j. */
  predicate ListedBefore(rows: seq<Record>, c: OrderColumn, i: nat, j: nat)
    requires i < |rows| && j < |rows|
  {
    KeyBelow(SortKey(rows[j], c), SortKey(rows[i], c))
    || (SortKey(rows[i], c) == SortKey(rows[j], c) && i > j)
  }

  /** The listing order is a strict total order on positions. */
  lemma ListedBeforeOrder(rows: seq<Record>, c: OrderColumn, i: nat, j: nat, k: nat)
    requires i < |rows| && j < |rows| && k < |rows|
    ensures !ListedBefore(rows, c, i, i)
    ensures i != j ==> ListedBefore(rows, c, i, j) || ListedBefore(rows, c, j, i)
    ensures ListedBefore(rows, c, i, j) ==> !ListedBefore(rows, c, j, i)
    ensures ListedBefore(rows, c, i, j) && ListedBefore(rows, c, j, k) ==> ListedBefore(rows, c, i, k)
  {
  }

  predicate InRange(o: seq<nat>, n: nat)
  {
    forall i :: 0 <= i < |o| ==> o[i] < n
  }

  /** Positions listed in query order: each before every later one. */
  predicate Sorted(rows: seq<Record>, c: OrderColumn, o: seq<nat>)
    requires InRange(o, |rows|)
  {
    forall i, j :: 0 <= i < j < |o| ==> ListedBefore(rows, c, o[i], o[j])
  }

  /** Puts position k, newer than every listed position, into its place in the listing. */
  function Insert(rows: seq<Record>, c: OrderColumn, o: seq<nat>, k: nat): (r: seq<nat>)
    requires k < |rows| && InRange(o, k)
    ensures |r| == |o| + 1 && InRange(r, k + 1)
    ensures forall e :: e in r <==> e in o || e == k
  {
    if o == [] then [k]
    else if ListedBefore(rows, c, k, o[0]) then [k] + o
    else [o[0]] + Insert(rows, c, o[1..], k)
  }

  /** Inserting keeps a listing in query order. */
  lemma {:induction false} InsertSorted(rows: seq<Record>, c: OrderColumn, o: seq<nat>, k: nat)
    requires k < |rows| && InRange(o, k) && Sorted(rows, c, o)
    ensures Sorted(rows, c, Insert(rows, c, o, k))
  {
    var r := Insert(rows, c, o, k);
    if o == [] {
    } else if ListedBefore(rows, c, k, o[0]) {
      forall i, j | 0 <= i < j < |r| ensures ListedBefore(rows, c, r[i], r[j]) {
        if i == 0 && j > 1 {
          ListedBeforeOrder(rows, c, k, o[0], o[j - 1]);
        }
      }
    } else {
      InsertSorted(rows, c, o[1..], k);
      var t := Insert(rows, c, o[1..], k);
      ListedBeforeOrder(rows, c, k, o[0], o[0]);
      forall i, j | 0 <= i < j < |r| ensures ListedBefore(rows, c, r[i], r[j]) {
        if i == 0 {
          assert r[j] == t[j - 1] && r[j] in t;
          assert r[j] in o[1..] || r[j] == k;
          if r[j] != k {
            var m :| 0 <= m < |o[1..]| && o[1..][m] == r[j];
            assert o[m + 1] == r[j];
          }
        }
      }
    }
  }

  /** The positions below n of the rows the filter keeps, in query order. */
  function Order(rows: seq<Record>, f: Filter, c: OrderColumn, n: nat): (o: seq<nat>)
    requires n <= |rows|
    ensures InRange(o, n)
  {
    if n == 0 then []
    else
      var o := Order(rows, f, c, n - 1);
      if Matches(rows[n - 1], f) then Insert(rows, c, o, n - 1) else o
  }

  /** A listing is in query order. */
  lemma {:induction false} OrderSorted(rows: seq<Record>, f: Filter, c: OrderColumn, n: nat)
    requires n <= |rows|
    ensures Sorted(rows, c, Order(rows, f, c, n))
  {
    if n > 0 {
      OrderSorted(rows, f, c, n - 1);
      if Matches(rows[n - 1], f) {
        InsertSorted(rows, c, Order(rows, f, c, n - 1), n - 1);
      }
    }
  }

  /** A listing holds exactly the positions of the rows the filter keeps. */
  lemma {:induction false} OrderContents(rows: seq<Record>, f: Filter, c: OrderColumn, n: nat)
    requires n <= |rows|
    ensures forall k: nat :: k in Order(rows, f, c, n) <==> k < n && Matches(rows[k], f)
  {
    if n > 0 {
      OrderContents(rows, f, c, n - 1);
      var o := Order(rows, f, c, n - 1);
      assert forall k: nat :: k in o ==> k < n - 1;
    }
  }

  /** Each row appears at most once in a listing. */
  lemma OrderDistinct(rows: seq<Record>, f: Filter, c: OrderColumn, n: nat)
    requires n <= |rows|
    ensures var o := Order(rows, f, c, n); forall i, j :: 0 <= i < j < |o| ==> o[i] != o[j]
  {
    var o := Order(rows, f, c, n);
    OrderSorted(rows, f, c, n);
    forall i, j | 0 <= i < j < |o| ensures o[i] != o[j] {
      ListedBeforeOrder(rows, c, o[i], o[j], o[j]);
    }
  }

  /** The sessions at the listed positions. */
  function Listed(rows: seq<Record>, o: seq<nat>): (r: seq<Session>)
    requires InRange(o, |rows|)
    ensures |r| == |o| && forall i :: 0 <= i < |o| ==> r[i] == Scan(rows[o[i]])
  {
    seq(|o|, i requires 0 <= i < |o| => Scan(rows[o[i]]))
  }
}
