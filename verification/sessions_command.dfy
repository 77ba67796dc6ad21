/**
 * `cmt sessions`: the tracked sessions as a table, optionally filtered by status and
 * limited in number, with long directories shortened and ages in coarse units. The
 * table is returned as rows of cells; laying it out with a tab writer and printing it
 * is not modelled. Lengths count characters; Go's `len` and slicing count bytes, and
 * the two agree on ASCII paths.
 */
module SessionsCommand {
  import opened Wrappers
  import opened Text
  import opened SessionTable
  import Store
  import Tmux
  import Age

  /** The width the directory column is shortened to. */
  const DirectoryWidth: int := 30
  const Ellipsis: string := "..."

  /**
   * `shortenPath`: a path that fits is kept; a longer one becomes `...` followed by its
   * last `maxLen - 3` characters, which needs `maxLen >= 3` (Go's slice would be out of
   * range otherwise).
   */
  function ShortenPath(path: string, maxLen: int): (r: string)
    requires |path| > maxLen ==> maxLen >= 3
    ensures |path| <= maxLen ==> r == path
    ensures |path| > maxLen ==> |r| == maxLen && r[..3] == Ellipsis && r[3..] == path[|path| - (maxLen - 3)..]
    ensures |r| <= maxLen
  {
    if |path| <= maxLen then path
    else Ellipsis + path[|path| - maxLen + 3..]
  }

  /** The unit suffix each bucket is printed with. */
  function AgeSuffix(b: Age.Bucket): string
  {
    match b
    case UnderAMinute => ""
    case Minutes(_) => "m ago"
    case Hours(_) => "h ago"
    case Days(_) => "d ago"
  }

  /** `formatAge`: `just now` under a minute, otherwise the whole number of units and `m ago`, `h ago` or `d ago`. */
  function FormatAge(elapsed: int): (s: string)
    ensures elapsed < Age.SecondsPerMinute ==> s == "just now"
    ensures elapsed >= Age.SecondsPerMinute ==>
      var b := Age.BucketOf(elapsed);
      s == NatToDecimal(b.n) + AgeSuffix(b) && DigitsValue(NatToDecimal(b.n)) == b.n
  {
    var b := Age.BucketOf(elapsed);
    if b.UnderAMinute? then "just now"
    else
      NatToDecimalValue(b.n);
      NatToDecimal(b.n) + AgeSuffix(b)
  }

  /** The four buckets, at 30 seconds, 5 minutes, 2 hours and 2 days. */
  lemma FormatAgeExamples()
    ensures FormatAge(30) == "just now"
    ensures FormatAge(300) == "5m ago"
    ensures FormatAge(7200) == "2h ago"
    ensures FormatAge(172800) == "2d ago"
  {
    assert Age.BucketOf(300) == Age.Minutes(5);
    assert Age.BucketOf(7200) == Age.Hours(2);
    assert Age.BucketOf(172800) == Age.Days(2);
    assert NatToDecimal(5) == "5";
    assert NatToDecimal(2) == "2";
  }

  /** The limit: a positive limit below the count keeps that many from the front; otherwise all are kept. */
  function ApplyLimit(sessions: seq<Session>, limit: int): (r: seq<Session>)
    ensures r <= sessions
    ensures |r| == (if limit > 0 && |sessions| > limit then limit else |sessions|)
  {
    if limit > 0 && |sessions| > limit then sessions[..limit] else sessions
  }

  /** One line of the table: id, status, workflow, directory, tmux location, age. */
  datatype Row = Row(id: string, status: string, workflow: string, directory: string, tmux: string, age: string)

  function RowOf(s: Session, now: int): (row: Row)
    ensures row.id == s.id && row.status == s.status && row.workflow == s.workflowType
    ensures |row.directory| <= DirectoryWidth
    ensures row.tmux == Tmux.LocationString(Tmux.Location(s.tmuxSession, s.tmuxWindow, s.tmuxPane))
    ensures row.directory == ShortenPath(s.workingDirectory, DirectoryWidth)
    ensures row.age == FormatAge(now - s.createdAt)
  {
    Row(s.id, s.status, s.workflowType, ShortenPath(s.workingDirectory, DirectoryWidth),
        Tmux.LocationString(Tmux.Location(s.tmuxSession, s.tmuxWindow, s.tmuxPane)),
        FormatAge(now - s.createdAt))
  }

  /** What the command prints: `No sessions found.` when nothing matches, else the table. */
  datatype Report = NoSessionsFound | Table(rows: seq<Row>)

  /**
   * `SessionsCmd.Run`: list the sessions with the status (every session not deleted
   * when it is empty); none gives the message; otherwise the first `limit` of them (all
   * when `limit` is not positive), one row each, in listing order.
   */
  method Run(db: Store.DB, status: string, limit: int, now: int) returns (r: Report)
    requires db.Valid()
    ensures var listed := Listed(db.rows, Order(db.rows, StatusFilter(status), ByCreatedAt, |db.rows|));
      (r.NoSessionsFound? <==> listed == [])
      && (r.Table? ==> (
            |r.rows| == |ApplyLimit(listed, limit)|
              && forall i :: 0 <= i < |r.rows| ==> r.rows[i] == RowOf(listed[i], now)))
  {
    var sessions := db.ListSessions(status);
    if |sessions| == 0 {
      return NoSessionsFound;
    }
    var rows := Rows(ApplyLimit(sessions, limit), now);
    return Table(rows);
  }

  /** The loop over the sessions shown: one row each, in order. */
  method Rows(shown: seq<Session>, now: int) returns (rows: seq<Row>)
    ensures |rows| == |shown|
    ensures forall k :: 0 <= k < |shown| ==> rows[k] == RowOf(shown[k], now)
  {
    rows := [];
    for i := 0 to |shown|
      invariant |rows| == i
      invariant forall k :: 0 <= k < i ==> rows[k] == RowOf(shown[k], now)
    {
      rows := rows + [RowOf(shown[i], now)];
    }
  }
}
