/**
 * `Runner.Run`: the decisions around one agent run. Inside tmux, a session row is
 * created in the `waiting` state at the current pane, the agent command is built, and
 * after the run the row ends `completed` or, if the run failed, `abandoned`. The
 * environment (the `TMUX`, `CMT_PREFIX` and `CMT_COMMENT_TAG` variables, tmux's reply,
 * the current directory, the fresh id, the clock) and the result of the run under a
 * pseudo-terminal are inputs.
 */
module Runner {
  import opened Wrappers
  import opened SessionTable
  import Store
  import Tmux
  import opened ClaudeCommand

  /** What `Run` reads from its surroundings. */
  datatype RunEnv = RunEnv(
    tmuxEnv: string,
    locationReply: Result<string, string>,
    cwd: Result<string, string>,
    sessionId: string,
    outputDir: string,
    prefixEnv: string,
    commentTagEnv: string,
    now: int,
    finished: int)

  /** The command to start and the directory to start it in. */
  datatype Launch = Launch(cmd: Cmd, dir: string)

  /** The id of a specific conversation being resumed, if any; the picker `*` is none. */
  function ResumedId(o: RunOptions): (id: string)
    ensures id != "" <==> o.resumeSessionId != "" && o.resumeSessionId != ResumePicker
    ensures id != "" ==> id == o.resumeSessionId
  {
    if o.resumeSessionId != "" && o.resumeSessionId != ResumePicker then o.resumeSessionId else ""
  }

  /** The working directory: the option if set, else the current directory. */
  function WorkDir(o: RunOptions, env: RunEnv): (r: Result<string, string>)
    ensures o.workingDir != "" ==> r == Success(o.workingDir)
    ensures o.workingDir == "" && env.cwd.Failure? ==> r == Failure("get working directory")
    ensures o.workingDir == "" && env.cwd.Success? ==> r == env.cwd
  {
    if o.workingDir != "" then Success(o.workingDir)
    else if env.cwd.Failure? then Failure("get working directory")
    else env.cwd
  }

  /**
   * The checks and the session row `Run` prepares before touching the store: outside
   * tmux, or when the location or the directory cannot be found, there is no row.
   */
  function Prepare(o: RunOptions, env: RunEnv): (r: Result<Session, string>)
    ensures !Tmux.InTmux(env.tmuxEnv) ==> r == Failure("cmt requires tmux")
    ensures Tmux.InTmux(env.tmuxEnv) && Tmux.CurrentLocation(env.tmuxEnv, env.locationReply).1.Failure? ==>
      r == Failure("get tmux location")
    ensures (Tmux.InTmux(env.tmuxEnv) && Tmux.CurrentLocation(env.tmuxEnv, env.locationReply).1.Success?
      && WorkDir(o, env).Failure?) ==> r == Failure(WorkDir(o, env).error)
    ensures (Tmux.InTmux(env.tmuxEnv) && Tmux.CurrentLocation(env.tmuxEnv, env.locationReply).1.Success?
      && WorkDir(o, env).Success?) ==> r.Success?
    ensures r.Success? ==> (
      Tmux.InTmux(env.tmuxEnv)
        && Tmux.CurrentLocation(env.tmuxEnv, env.locationReply).1.Success?
        && WorkDir(o, env).Success?)
    ensures r.Success? ==> (
      var loc := Tmux.CurrentLocation(env.tmuxEnv, env.locationReply).1.value;
      r.value.id == env.sessionId && r.value.status == Waiting && r.value.pid == 0
        && r.value.workflowType == o.workflowType && r.value.taskDescription == o.taskDescription
        && r.value.workingDirectory == WorkDir(o, env).value && r.value.prefix == env.prefixEnv
        && r.value.claudeSessionId == ResumedId(o)
        && r.value.tmuxSession == loc.session && r.value.tmuxWindow == loc.window && r.value.tmuxPane == loc.pane
        && r.value.outputFile == Store.JoinPath(env.outputDir, env.sessionId + ".log")
        && r.value.deletedAt == None)
  {
    if Tmux.RequireTmux(env.tmuxEnv).Fail? then Failure("cmt requires tmux")
    else
      var (_, located) := Tmux.CurrentLocation(env.tmuxEnv, env.locationReply);
      if located.Failure? then Failure("get tmux location")
      else match WorkDir(o, env)
        case Failure(e) => Failure(e)
        case Success(dir) =>
          var loc := located.value;
          Success(Session(env.sessionId, 0, 0, o.workflowType, Waiting, dir, o.taskDescription,
                          env.prefixEnv, ResumedId(o), loc.session, loc.window, loc.pane,
                          Store.JoinPath(env.outputDir, env.sessionId + ".log"), 0, None))
  }

  /** The options the command is built from: the comment tag falls back to `CMT_COMMENT_TAG`. */
  function Effective(o: RunOptions, env: RunEnv): (o': RunOptions)
    ensures o'.commentTag == (if o.commentTag != "" then o.commentTag else env.commentTagEnv)
    ensures o' == o.(commentTag := o'.commentTag)
  {
    if o.commentTag == "" then o.(commentTag := env.commentTagEnv) else o
  }

  /** The status a finished run leaves. */
  function FinalStatus(run: Outcome<string>): (s: string)
    ensures s == Abandoned <==> run.Fail?
    ensures s == Completed <==> run.Pass?
  {
    if run.Fail? then Abandoned else Completed
  }

  /**
   * `Run`. Every failure before the row is created leaves the store as it was and
   * starts nothing; otherwise the row is created, the command is started in the working
   * directory, and the row ends `abandoned` if the run failed and `completed` if not,
   * the run's own error being returned.
   */
  method Run(db: Store.DB, o: RunOptions, env: RunEnv, run: Outcome<string>) returns (r: Outcome<string>, launched: Option<Launch>)
    requires db.Valid()
    modifies db
    ensures db.Valid()
    ensures Prepare(o, env).Failure? ==>
      r == Fail(Prepare(o, env).error) && launched == None && db.rows == old(db.rows)
    ensures Prepare(o, env).Success? && Find(old(db.rows), env.sessionId).Some? ==>
      r == Fail("create session") && launched == None && db.rows == old(db.rows)
    ensures Prepare(o, env).Success? && Find(old(db.rows), env.sessionId).None? ==>
      r == run
      && launched == Some(Launch(BuildCommand(Effective(o, env)), Prepare(o, env).value.workingDirectory))
      && db.rows == Update(old(db.rows) + [NewRecord(Prepare(o, env).value, env.now)],
                           env.sessionId, SetStatus(FinalStatus(run)), env.finished)
  {
    var prepared := Prepare(o, env);
    if prepared.Failure? {
      return Fail(prepared.error), None;
    }
    var session := prepared.value;
    var created := db.CreateSession(session, env.now);
    if created.Fail? {
      return Fail("create session"), None;
    }
    var opts := Effective(o, env);
    launched := Some(Launch(BuildCommand(opts), session.workingDirectory));
    if run.Fail? {
      db.UpdateSessionStatus(session.id, Abandoned, env.finished);
      return run, launched;
    }
    db.UpdateSessionStatus(session.id, Completed, env.finished);
    return Pass, launched;
  }

  /**
   * After a run that started, the session reads back as prepared, with the creation
   * time, the finishing time, and `abandoned` exactly when the run failed.
   */
  lemma RunLeavesSession(rows: seq<Record>, s: Session, now: int, finished: int, run: Outcome<string>)
    requires UniqueIds(rows) && Find(rows, s.id).None?
    ensures var rows' := Update(rows + [NewRecord(s, now)], s.id, SetStatus(FinalStatus(run)), finished);
      Find(rows', s.id) == Some(s.(createdAt := now, updatedAt := finished, status := FinalStatus(run), deletedAt := None))
    ensures var rows' := Update(rows + [NewRecord(s, now)], s.id, SetStatus(FinalStatus(run)), finished);
      Find(rows', s.id).value.status == Abandoned <==> run.Fail?
    ensures forall other :: other != s.id ==>
      Find(Update(rows + [NewRecord(s, now)], s.id, SetStatus(FinalStatus(run)), finished), other) == Find(rows, other)
  {
    var created := rows + [NewRecord(s, now)];
    FindAt(created, |rows|) by {
      forall i, j | 0 <= i < |created| && 0 <= j < |created| && i != j ensures created[i].id != created[j].id {
        if i < |rows| && j < |rows| {
          assert created[i] == rows[i] && created[j] == rows[j];
        }
      }
    }
    assert UniqueIds(created);
    ScanNewRecord(s, now);
    UpdateStatusChangesOnlyStatus(created, s.id, FinalStatus(run), finished);
    forall other | other != s.id
      ensures Find(Update(created, s.id, SetStatus(FinalStatus(run)), finished), other) == Find(rows, other)
    {
      UpdateOthers(created, s.id, SetStatus(FinalStatus(run)), finished, other);
      AppendOthers(rows, NewRecord(s, now), other);
    }
  }

  /** Appending a row leaves every other id's lookup as it was. */
  lemma AppendOthers(rows: seq<Record>, rec: Record, other: string)
    requires other != rec.id
    ensures Find(rows + [rec], other) == Find(rows, other)
  {
    var all := rows + [rec];
    assert forall j :: 0 <= j < |rows| ==> all[j] == rows[j];
    match FindIndex(rows, other)
    case None =>
      assert FindIndex(all, other) == None;
    case Some(k) =>
      var k' := FindIndex(all, other);
      assert all[k].id == other;
      assert k'.Some? && k'.value <= k;
      assert k'.value == k;
  }

  /**
   * A run that resumes a specific conversation records its id on the row; a fresh run or
   * one that opens the picker records none.
   */
  lemma ResumedIdRecorded(o: RunOptions, env: RunEnv)
    requires Prepare(o, env).Success?
    ensures Prepare(o, env).value.claudeSessionId == o.resumeSessionId
      <==> o.resumeSessionId != ResumePicker
    ensures o.resumeSessionId == ResumePicker ==> Prepare(o, env).value.claudeSessionId == ""
  {
  }
}
