/**
 * The session store: a `DB` object over the `sessions` table, with every query and
 * update of the table, and `Open`, which expands a leading `~/`, migrates the legacy
 * status and marks as abandoned the working sessions whose process is gone.
 * The database clock (CURRENT_TIMESTAMP) is the `now` argument; the set of live process
 * ids stands for the signal-0 probe.
 */
module Store {
  import opened Wrappers
  import opened SessionTable

  /** The status older databases used for what is now `waiting`. */
  const LegacyActive := "active"

  predicate HasPrefix(s: string, prefix: string)
  {
    |prefix| <= |s| && s[..|prefix|] == prefix
  }

  /** `filepath.Join` of two elements, empty elements ignored (cleaning is not modelled). */
  function JoinPath(a: string, b: string): string
  {
    if a == "" then b else if b == "" then a else a + "/" + b
  }

  /**
   * `Open`'s path expansion: a path starting with `~/` is resolved against the home
   * directory, which must be known; any other path is used as given.
   */
  function ExpandTilde(path: string, home: Option<string>): (r: Result<string, string>)
    ensures !HasPrefix(path, "~/") ==> r == Success(path)
    ensures HasPrefix(path, "~/") ==> (r.Failure? <==> home.None?)
    ensures HasPrefix(path, "~/") && home.Some? && home.value != "" && |path| > 2 ==>
      r == Success(home.value + "/" + path[2..])
    ensures path == "~/" && home.Some? ==> r == Success(home.value)
    ensures HasPrefix(path, "~/") && home == Some("") ==> r == Success(path[2..])
  {
    if HasPrefix(path, "~/") then
      match home
      case None => Failure("get home directory")
      case Some(h) => Success(JoinPath(h, path[2..]))
    else Success(path)
  }

  /** Expanding an expanded path changes nothing, when the home directory is not itself under `~`. */
  lemma ExpandTildeIdempotent(path: string, home: Option<string>)
    requires home.Some? ==> home.value != "" && home.value[0] != '~'
    requires ExpandTilde(path, home).Success?
    ensures ExpandTilde(ExpandTilde(path, home).value, home) == ExpandTilde(path, home)
  {
    if HasPrefix(path, "~/") {
      var p := ExpandTilde(path, home).value;
      assert p[0] == home.value[0];
    }
  }

  /** `isProcessRunning`: no pid at or below zero names a process; others are probed. */
  predicate IsProcessRunning(pid: int, running: set<int>)
    ensures IsProcessRunning(pid, running) ==> pid > 0
    ensures pid > 0 ==> (IsProcessRunning(pid, running) <==> pid in running)
  {
    pid > 0 && pid in running
  }

  /** `UPDATE sessions SET status = 'waiting' WHERE status = 'active'`. */
  function MigrateLegacy(rows: seq<Record>): (rows': seq<Record>)
    ensures |rows'| == |rows|
  {
    seq(|rows|, k requires 0 <= k < |rows| => if rows[k].status == LegacyActive then rows[k].(status := Waiting) else rows[k])
  }

  /** After the migration no row has the legacy status, and only legacy rows changed, to `waiting`. */
  lemma MigrateLegacyCorrect(rows: seq<Record>)
    ensures forall k :: 0 <= k < |rows| ==> MigrateLegacy(rows)[k].status != LegacyActive
    ensures forall k :: 0 <= k < |rows| && rows[k].status != LegacyActive ==> MigrateLegacy(rows)[k] == rows[k]
    ensures forall k :: 0 <= k < |rows| && rows[k].status == LegacyActive ==>
      MigrateLegacy(rows)[k] == rows[k].(status := Waiting)
  {
  }

  /** The migration is idempotent. */
  lemma MigrateLegacyIdempotent(rows: seq<Record>)
    ensures MigrateLegacy(MigrateLegacy(rows)) == MigrateLegacy(rows)
  {
    MigrateLegacyCorrect(rows);
  }

  /** A stuck session: working, with a recorded pid that names no live process. */
  predicate Stuck(r: Record, running: set<int>)
  {
    r.status == Working && r.pid.Some? && !IsProcessRunning(r.pid.value, running)
  }

  /** The recovery: every stuck session becomes abandoned, stamped with `now`. */
  function Recover(rows: seq<Record>, running: set<int>, now: int): (rows': seq<Record>)
    ensures |rows'| == |rows|
  {
    seq(|rows|, k requires 0 <= k < |rows| =>
      if Stuck(rows[k], running) then Apply(rows[k], SetStatus(Abandoned), now) else rows[k])
  }

  /** After the recovery no session is stuck; the sessions that were not stuck are untouched. */
  lemma RecoverCorrect(rows: seq<Record>, running: set<int>, now: int)
    ensures forall k :: 0 <= k < |rows| ==> !Stuck(Recover(rows, running, now)[k], running)
    ensures forall k :: 0 <= k < |rows| && !Stuck(rows[k], running) ==> Recover(rows, running, now)[k] == rows[k]
    ensures forall k :: 0 <= k < |rows| && Stuck(rows[k], running) ==>
      Recover(rows, running, now)[k].status == Abandoned && Recover(rows, running, now)[k].updatedAt == now
  {
  }

  /** A second recovery, at any time, finds nothing to do. */
  lemma RecoverIdempotent(rows: seq<Record>, running: set<int>, now: int, later: int)
    ensures Recover(Recover(rows, running, now), running, later) == Recover(rows, running, now)
  {
    RecoverCorrect(rows, running, now);
  }

  /** A working session whose recorded pid is zero is always recovered as abandoned. */
  lemma ZeroPidIsRecovered(rows: seq<Record>, running: set<int>, now: int, k: nat)
    requires k < |rows| && rows[k].status == Working && rows[k].pid == Some(0)
    ensures Recover(rows, running, now)[k].status == Abandoned
  {
  }

  /** The open database. */
  class DB {
    var rows: seq<Record>
    const path: string

    ghost predicate Valid()
      reads this
    {
      UniqueIds(rows)
    }

    constructor (path: string, rows: seq<Record>)
      requires UniqueIds(rows)
      ensures this.path == path && this.rows == rows && Valid()
    {
      this.path := path;
      this.rows := rows;
    }

    /** `Path`: the path the database was opened at, fixed for its lifetime. */
    function Path(): (p: string)
      ensures p == path
    {
      path
    }

    /** `CreateSession`: inserts the session's row; an id already present is refused by the key. */
    method CreateSession(s: Session, now: int) returns (r: Outcome<string>)
      requires Valid()
      modifies this
      ensures Valid()
      ensures Find(old(rows), s.id).Some? ==> r.Fail? && rows == old(rows)
      ensures Find(old(rows), s.id).None? ==> r.Pass? && rows == old(rows) + [NewRecord(s, now)]
    {
      if Find(rows, s.id).Some? {
        return Fail("insert session");
      }
      rows := rows + [NewRecord(s, now)];
      return Pass;
    }

    /** `GetSession`: the session with the id, or nil when there is none. */
    method GetSession(id: string) returns (r: Option<Session>)
      requires Valid()
      ensures r.None? <==> forall k :: 0 <= k < |rows| ==> rows[k].id != id
      ensures r.Some? ==> exists k :: 0 <= k < |rows| && rows[k].id == id && r.value == Scan(rows[k])
    {
      r := Find(rows, id);
    }

    /** `GetLastSession`: the session created last (the later row on a tie), or nil for an empty table. */
    method GetLastSession() returns (r: Option<Session>)
      ensures r.None? <==> |rows| == 0
      ensures r.Some? ==>
        (exists k :: 0 <= k < |rows| && r.value == Scan(rows[k]) &&
           (forall j :: 0 <= j < |rows| && j != k ==> ListedBefore(rows, ByCreatedAt, k, j)))
    {
      if |rows| == 0 {
        return None;
      }
      var o := Order(rows, Everything, ByCreatedAt, |rows|);
      OrderContents(rows, Everything, ByCreatedAt, |rows|);
      assert 0 in o;
      OrderSorted(rows, Everything, ByCreatedAt, |rows|);
      OrderDistinct(rows, Everything, ByCreatedAt, |rows|);
      forall j | 0 <= j < |rows| && j != o[0] ensures ListedBefore(rows, ByCreatedAt, o[0], j) {
        assert j in o;
        var m :| 0 <= m < |o| && o[m] == j;
      }
      r := Some(Scan(rows[o[0]]));
    }

    /**
     * `ListSessions`: the sessions with the status, or every session not deleted when the
     * status is empty, newest first (the later row first on a tie).
     */
    method ListSessions(status: string) returns (r: seq<Session>)
      requires Valid()
      ensures r == Listed(rows, Order(rows, StatusFilter(status), ByCreatedAt, |rows|))
      ensures forall k :: 0 <= k < |rows| ==> (Scan(rows[k]) in r <==> Matches(rows[k], StatusFilter(status)))
      ensures forall i, j :: 0 <= i < j < |r| ==> r[i].createdAt >= r[j].createdAt
    {
      var o := Order(rows, StatusFilter(status), ByCreatedAt, |rows|);
      r := Collect(o);
      ListedCorrect(StatusFilter(status), ByCreatedAt);
    }

    /** `ListDeletedSessions`: the deleted sessions, most recently deleted first. */
    method ListDeletedSessions() returns (r: seq<Session>)
      requires Valid()
      ensures r == Listed(rows, Order(rows, HasStatus(Deleted), ByDeletedAt, |rows|))
      ensures forall k :: 0 <= k < |rows| ==> (Scan(rows[k]) in r <==> rows[k].status == Deleted)
      ensures forall i, j :: 0 <= i < j < |r| ==> !KeyBelow(r[i].deletedAt, r[j].deletedAt)
    {
      var o := Order(rows, HasStatus(Deleted), ByDeletedAt, |rows|);
      r := Collect(o);
      ListedCorrect(HasStatus(Deleted), ByDeletedAt);
    }

    /** The loop over the query's result rows, scanning each and appending it. */
    method Collect(o: seq<nat>) returns (r: seq<Session>)
      requires InRange(o, |rows|)
      ensures r == Listed(rows, o)
    {
      r := [];
      var i := 0;
      while i < |o|
        invariant 0 <= i <= |o|
        invariant r == Listed(rows, o[..i])
      {
        r := r + [Scan(rows[o[i]])];
        i := i + 1;
      }
      assert o[..i] == o;
    }

    /** A listing holds exactly the sessions the filter keeps, ordered by the column. */
    lemma ListedCorrect(f: Filter, c: OrderColumn)
      requires Valid()
      ensures var r := Listed(rows, Order(rows, f, c, |rows|));
        forall k :: 0 <= k < |rows| ==> (Scan(rows[k]) in r <==> Matches(rows[k], f))
      ensures var r := Listed(rows, Order(rows, f, c, |rows|));
        forall i, j :: 0 <= i < j < |r| ==> !KeyBelow(SortKey(rows[Order(rows, f, c, |rows|)[i]], c),
                                                      SortKey(rows[Order(rows, f, c, |rows|)[j]], c))
    {
      OrderSorted(rows, f, c, |rows|);
      forall k | 0 <= k < |rows| ensures Scan(rows[k]) in Listed(rows, Order(rows, f, c, |rows|)) <==> Matches(rows[k], f) {
        ListedMember(rows, f, c, k);
      }
    }

    /** `UpdateSession`: overwrites every column of the session's row but the id and `created_at`. */
    method UpdateSession(s: Session, now: int)
      requires Valid()
      modifies this
      ensures Valid() && rows == Update(old(rows), s.id, SetColumns(s), now)
    {
      UpdateUnique(rows, s.id, SetColumns(s), now);
      rows := Update(rows, s.id, SetColumns(s), now);
    }

    /** `UpdateSessionStatus`. */
    method UpdateSessionStatus(id: string, status: string, now: int)
      requires Valid()
      modifies this
      ensures Valid() && rows == Update(old(rows), id, SetStatus(status), now)
    {
      UpdateUnique(rows, id, SetStatus(status), now);
      rows := Update(rows, id, SetStatus(status), now);
    }

    /** `UpdateSessionPID`. */
    method UpdateSessionPid(id: string, pid: int, now: int)
      requires Valid()
      modifies this
      ensures Valid() && rows == Update(old(rows), id, SetPid(pid), now)
    {
      UpdateUnique(rows, id, SetPid(pid), now);
      rows := Update(rows, id, SetPid(pid), now);
    }

    /** `UpdateClaudeSessionID`. */
    method UpdateClaudeSessionId(id: string, claudeId: string, now: int)
      requires Valid()
      modifies this
      ensures Valid() && rows == Update(old(rows), id, SetClaudeSessionId(claudeId), now)
    {
      UpdateUnique(rows, id, SetClaudeSessionId(claudeId), now);
      rows := Update(rows, id, SetClaudeSessionId(claudeId), now);
    }

    /** `SoftDeleteSession`: status `deleted`, deleted at `now`. */
    method SoftDeleteSession(id: string, now: int)
      requires Valid()
      modifies this
      ensures Valid() && rows == Update(old(rows), id, MarkDeleted, now)
    {
      UpdateUnique(rows, id, MarkDeleted, now);
      rows := Update(rows, id, MarkDeleted, now);
    }

    /** `RestoreSession`: status `restored`, deletion mark cleared (whatever the status was). */
    method RestoreSession(id: string, now: int)
      requires Valid()
      modifies this
      ensures Valid() && rows == Update(old(rows), id, ClearDeleted, now)
    {
      UpdateUnique(rows, id, ClearDeleted, now);
      rows := Update(rows, id, ClearDeleted, now);
    }

    /** `DeleteSession`: removes the row for good. */
    method DeleteSession(id: string)
      requires Valid()
      modifies this
      ensures Valid() && rows == RemoveId(old(rows), id)
    {
      RemoveIdUnique(rows, id);
      rows := RemoveId(rows, id);
    }

    /** `PruneDeletedSessions`: removes the sessions deleted over 7 days ago and reports how many. */
    method PruneDeletedSessions(now: int) returns (count: int)
      requires Valid()
      modifies this
      ensures Valid() && rows == Prune(old(rows), now)
      ensures count == PruneCount(old(rows), now) == |old(rows)| - |rows|
    {
      count := PruneCount(rows, now);
      PruneRemovesCount(rows, now);
      PruneUnique(rows, now);
      rows := Prune(rows, now);
    }
  }

  /** A row's session is in a listing exactly when the filter keeps the row. */
  lemma ListedMember(rows: seq<Record>, f: Filter, c: OrderColumn, k: nat)
    requires UniqueIds(rows) && k < |rows|
    ensures Scan(rows[k]) in Listed(rows, Order(rows, f, c, |rows|)) <==> Matches(rows[k], f)
  {
    var o := Order(rows, f, c, |rows|);
    var r := Listed(rows, o);
    OrderContents(rows, f, c, |rows|);
    if Matches(rows[k], f) {
      assert k in o;
      var m :| 0 <= m < |o| && o[m] == k;
      assert r[m] == Scan(rows[k]);
    }
    if Scan(rows[k]) in r {
      var m :| 0 <= m < |r| && r[m] == Scan(rows[k]);
      assert rows[o[m]].id == rows[k].id;
      assert o[m] in o;
    }
  }

  /** A prune keeps the key unique. */
  lemma {:induction false} PruneUnique(rows: seq<Record>, now: int)
    requires UniqueIds(rows)
    ensures UniqueIds(Prune(rows, now))
  {
    if rows != [] {
      assert UniqueIds(rows[1..]) by {
        forall i, j | 0 <= i < |rows[1..]| && 0 <= j < |rows[1..]| && i != j
          ensures rows[1..][i].id != rows[1..][j].id
        {
          assert rows[1..][i] == rows[i + 1] && rows[1..][j] == rows[j + 1];
        }
      }
      PruneUnique(rows[1..], now);
      var tail := Prune(rows[1..], now);
      forall r | r in tail ensures r.id != rows[0].id {
        var k :| 0 <= k < |rows[1..]| && rows[1..][k] == r;
        assert rows[k + 1] == r;
      }
    }
  }

  /** The ids of the stuck sessions among the rows, in row order: the recovery's first loop. */
  method StuckIds(rows: seq<Record>, running: set<int>) returns (ids: seq<string>)
    ensures forall k :: 0 <= k < |rows| && Stuck(rows[k], running) ==> rows[k].id in ids
    ensures forall id :: id in ids ==> exists k :: 0 <= k < |rows| && rows[k].id == id && Stuck(rows[k], running)
  {
    ids := [];
    var i := 0;
    while i < |rows|
      invariant 0 <= i <= |rows|
      invariant forall k :: 0 <= k < i && Stuck(rows[k], running) ==> rows[k].id in ids
      invariant forall id :: id in ids ==> exists k :: 0 <= k < i && rows[k].id == id && Stuck(rows[k], running)
    {
      var r := rows[i];
      if r.status == Working && r.pid.Some? {
        if !IsProcessRunning(r.pid.value, running) {
          ids := ids + [r.id];
        }
      }
      i := i + 1;
    }
  }

  /**
   * `Open`: expands the path, migrates the legacy status of the stored rows, then marks
   * as abandoned each working session whose recorded pid names no live process, first
   * collecting their ids and then updating them one by one.
   */
  method Open(path: string, home: Option<string>, stored: seq<Record>, running: set<int>, now: int)
    returns (r: Result<DB, string>)
    requires UniqueIds(stored)
    ensures ExpandTilde(path, home).Failure? ==> r.Failure?
    ensures ExpandTilde(path, home).Success? ==>
      (r.Success? && fresh(r.value) && r.value.Valid()
       && r.value.Path() == ExpandTilde(path, home).value
       && r.value.rows == Recover(MigrateLegacy(stored), running, now))
  {
    var expanded := ExpandTilde(path, home);
    if expanded.Failure? {
      return Failure(expanded.error);
    }
    var migrated := MigrateLegacy(stored);
    assert UniqueIds(migrated);
    var db := new DB(expanded.value, migrated);
    var stuck := StuckIds(db.rows, running);
    var j := 0;
    while j < |stuck|
      invariant 0 <= j <= |stuck| && db.Valid() && db.path == expanded.value
      invariant |db.rows| == |migrated|
      invariant forall k :: 0 <= k < |migrated| ==>
        (db.rows[k] == if Stuck(migrated[k], running) && migrated[k].id in stuck[..j]
                       then Apply(migrated[k], SetStatus(Abandoned), now) else migrated[k])
      modifies db
    {
      RecoverStep(migrated, db.rows, stuck, j, running, now);
      db.UpdateSessionStatus(stuck[j], Abandoned, now);
      j := j + 1;
    }
    assert stuck[..j] == stuck;
    return Success(db);
  }

  /** One update of the recovery's second loop keeps the rows in step with the stuck ids done so far. */
  lemma RecoverStep(migrated: seq<Record>, rows: seq<Record>, stuck: seq<string>, j: nat, running: set<int>, now: int)
    requires UniqueIds(migrated) && j < |stuck| && |rows| == |migrated|
    requires forall id :: id in stuck ==> exists k :: 0 <= k < |migrated| && migrated[k].id == id && Stuck(migrated[k], running)
    requires forall k :: 0 <= k < |migrated| ==>
      (rows[k] == if Stuck(migrated[k], running) && migrated[k].id in stuck[..j]
                  then Apply(migrated[k], SetStatus(Abandoned), now) else migrated[k])
    ensures var rows' := Update(rows, stuck[j], SetStatus(Abandoned), now);
      forall k :: 0 <= k < |migrated| ==>
        (rows'[k] == if Stuck(migrated[k], running) && migrated[k].id in stuck[..j + 1]
                     then Apply(migrated[k], SetStatus(Abandoned), now) else migrated[k])
  {
    var rows' := Update(rows, stuck[j], SetStatus(Abandoned), now);
    assert stuck[..j + 1] == stuck[..j] + [stuck[j]];
    assert stuck[j] in stuck;
    var m :| 0 <= m < |migrated| && migrated[m].id == stuck[j] && Stuck(migrated[m], running);
    forall k | 0 <= k < |migrated|
      ensures rows'[k] ==
        if Stuck(migrated[k], running) && migrated[k].id in stuck[..j + 1]
        then Apply(migrated[k], SetStatus(Abandoned), now) else migrated[k]
    {
      if migrated[k].id == stuck[j] {
        assert k == m;
      }
    }
  }
}
