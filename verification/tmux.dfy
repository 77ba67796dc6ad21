/**
 * The tmux helpers: where a pane is, whether the program runs inside tmux, and the
 * commands that read the current location, jump to a location and list the sessions.
 * The `TMUX` environment variable and the output of each tmux command are inputs; the
 * commands a helper runs are returned, in order, as argument lists.
 */
module Tmux {
  import opened Wrappers
  import opened Text

  /** A pane: session name, window index and pane index. */
  datatype Location = Location(session: string, window: int, pane: int)

  /** The errors of the helpers; `NotInTmux` is the sentinel `ErrNotInTmux`. */
  datatype TmuxError =
    | NotInTmux
    | CommandFailed(step: string)
    | UnexpectedFormat(output: string)
    | BadIndex(step: string)

  /** The arguments of one `tmux` invocation. */
  type Argv = seq<string>

  /** `Location.String`: `session:window.pane`, the form tmux accepts as a pane target. */
  function LocationString(l: Location): (r: string)
    ensures |r| > |l.session| && r[..|l.session| + 1] == l.session + ":"
    ensures ':' !in r[|l.session| + 1..] && '.' in r[|l.session| + 1..]
  {
    IntToDecimalChars(l.window);
    IntToDecimalChars(l.pane);
    var indices := IntToDecimal(l.window) + "." + IntToDecimal(l.pane);
    var r := l.session + ":" + indices;
    assert r[|l.session| + 1..] == indices;
    assert indices[|IntToDecimal(l.window)|] == '.';
    r
  }

  /** A session name tmux can report unchanged: no colon, and no leading white space. */
  predicate PlainSession(session: string)
  {
    ':' !in session && (session == [] || !IsSpace(session[0]))
  }

  /** Window and pane indices that `strconv.Atoi` reads back. */
  predicate IndicesInRange(l: Location)
  {
    MinInt <= l.window <= MaxInt && MinInt <= l.pane <= MaxInt
  }

  /**
   * For colon-free session names the target string determines the location: the
   * session is what comes before the colon, the indices what surrounds the dot.
   */
  lemma LocationStringInjective(a: Location, b: Location)
    requires ':' !in a.session && ':' !in b.session
    requires IndicesInRange(a) && IndicesInRange(b)
    requires LocationString(a) == LocationString(b)
    ensures a == b
  {
    LocationStringSplits(a);
    LocationStringSplits(b);
    IntToDecimalInjective(a.window, b.window);
    IntToDecimalInjective(a.pane, b.pane);
  }

  /** The pieces of a target string, split at the colon and then at the dot. */
  lemma LocationStringSplits(l: Location)
    requires ':' !in l.session
    ensures Split(LocationString(l), ':') == [l.session, IntToDecimal(l.window) + "." + IntToDecimal(l.pane)]
    ensures Split(IntToDecimal(l.window) + "." + IntToDecimal(l.pane), '.') == [IntToDecimal(l.window), IntToDecimal(l.pane)]
  {
    var w, p := IntToDecimal(l.window), IntToDecimal(l.pane);
    IntToDecimalChars(l.window);
    IntToDecimalChars(l.pane);
    assert ':' !in w + "." + p;
    assert Join([l.session, w + "." + p], [':']) == LocationString(l);
    SplitJoin([l.session, w + "." + p], ':');
    assert Join([w, p], ['.']) == w + "." + p;
    SplitJoin([w, p], '.');
  }

  /** `InTmux`: the `TMUX` variable is set to something. */
  predicate InTmux(tmuxEnv: string)
  {
    tmuxEnv != ""
  }

  /** `RequireTmux`: `ErrNotInTmux` exactly when `TMUX` is empty or unset, nil otherwise. */
  function RequireTmux(tmuxEnv: string): (r: Outcome<TmuxError>)
    ensures r.Fail? <==> !InTmux(tmuxEnv)
    ensures r.Fail? ==> r.error == NotInTmux
  {
    if InTmux(tmuxEnv) then Pass else Fail(NotInTmux)
  }

  /** The query `CurrentLocation` runs, and the reply tmux gives for a pane. */
  const DisplayLocation: Argv := ["display-message", "-p", "#{session_name}:#{window_index}:#{pane_index}"]

  function Reply(l: Location): string
  {
    l.session + ":" + IntToDecimal(l.window) + ":" + IntToDecimal(l.pane)
  }

  /**
   * The parsing step of `CurrentLocation`: the trimmed reply must have exactly three
   * colon-separated parts, the last two of which must be integers.
   */
  function ParseLocation(out: string): (r: Result<Location, TmuxError>)
    ensures |Split(TrimSpace(out), ':')| != 3 ==> r == Failure(UnexpectedFormat(out))
    ensures r.Success? ==> ':' !in r.value.session && IndicesInRange(r.value)
    ensures r.Success? ==> (
      var parts := Split(TrimSpace(out), ':');
      |parts| == 3 && r.value.session == parts[0]
        && Atoi(parts[1]) == Some(r.value.window) && Atoi(parts[2]) == Some(r.value.pane))
    ensures var parts := Split(TrimSpace(out), ':');
      |parts| == 3 && Atoi(parts[1]).Some? && Atoi(parts[2]).Some?
      ==> r == Success(Location(parts[0], Atoi(parts[1]).value, Atoi(parts[2]).value))
    ensures var parts := Split(TrimSpace(out), ':');
      |parts| == 3 && Atoi(parts[1]).None? ==> r == Failure(BadIndex("parse window index"))
    ensures var parts := Split(TrimSpace(out), ':');
      |parts| == 3 && Atoi(parts[1]).Some? && Atoi(parts[2]).None? ==> r == Failure(BadIndex("parse pane index"))
  {
    var parts := Split(TrimSpace(out), ':');
    if |parts| != 3 then Failure(UnexpectedFormat(out))
    else match Atoi(parts[1])
      case None => Failure(BadIndex("parse window index"))
      case Some(window) =>
        match Atoi(parts[2])
        case None => Failure(BadIndex("parse pane index"))
        case Some(pane) => Success(Location(parts[0], window, pane))
  }

  /** Parsing what tmux prints for a pane, final newline included, gives the pane back. */
  lemma ParseReply(l: Location)
    requires PlainSession(l.session) && IndicesInRange(l)
    ensures ParseLocation(Reply(l) + "\n") == Success(l)
  {
    ReplySplits(l);
    AtoiIntToDecimal(l.window);
    AtoiIntToDecimal(l.pane);
  }

  /** The trimmed reply splits at its colons into the session and the two indices. */
  lemma ReplySplits(l: Location)
    requires PlainSession(l.session)
    ensures Split(TrimSpace(Reply(l) + "\n"), ':') == [l.session, IntToDecimal(l.window), IntToDecimal(l.pane)]
  {
    var w, p := IntToDecimal(l.window), IntToDecimal(l.pane);
    IntToDecimalChars(l.window);
    IntToDecimalChars(l.pane);
    ReplyTrimmed(l);
    var reply := Reply(l);
    assert [l.session, w, p][1..] == [w, p];
    assert Join([w, p], [':']) == w + ":" + p;
    assert Join([l.session, w, p], [':']) == reply;
    SplitJoin([l.session, w, p], ':');
  }

  /** Trimming the reply removes the final newline and nothing else. */
  lemma ReplyTrimmed(l: Location)
    requires PlainSession(l.session)
    ensures TrimSpace(Reply(l) + "\n") == Reply(l)
  {
    var w, p := IntToDecimal(l.window), IntToDecimal(l.pane);
    IntToDecimalChars(l.window);
    IntToDecimalChars(l.pane);
    var reply := Reply(l);
    assert reply == l.session + ":" + w + ":" + p;
    assert reply[|reply| - 1] == p[|p| - 1];
    assert reply[0] == (if l.session == [] then ':' else l.session[0]);
    TrimSpaceTrailing(reply, "\n");
  }

  /** A session name with a colon in it makes the reply unparseable. */
  lemma ColonInSessionRejected(l: Location)
    requires ':' in l.session && !IsSpace(l.session[0])
    ensures ParseLocation(Reply(l) + "\n") == Failure(UnexpectedFormat(Reply(l) + "\n"))
  {
    var w, p := IntToDecimal(l.window), IntToDecimal(l.pane);
    IntToDecimalChars(l.window);
    IntToDecimalChars(l.pane);
    var reply := Reply(l);
    assert reply[|reply| - 1] == p[|p| - 1];
    TrimSpaceTrailing(reply, "\n");
    CountMember(l.session, ':');
    CountAppend(l.session, ":", ':');
    CountAppend(l.session + ":", w, ':');
    CountAppend(l.session + ":" + w, ":", ':');
    CountAppend(l.session + ":" + w + ":", p, ':');
  }

  /**
   * `CurrentLocation`, given the reply of the query (or its failure): outside tmux it
   * fails with `ErrNotInTmux` without running tmux at all.
   */
  function CurrentLocation(tmuxEnv: string, reply: Result<string, string>): (r: (seq<Argv>, Result<Location, TmuxError>))
    ensures !InTmux(tmuxEnv) ==> r == ([], Failure(NotInTmux))
    ensures InTmux(tmuxEnv) ==> r.0 == [DisplayLocation]
    ensures InTmux(tmuxEnv) && reply.Failure? ==> r.1 == Failure(CommandFailed("get tmux location"))
    ensures r.1.Success? ==> reply.Success? && ':' !in r.1.value.session
    ensures InTmux(tmuxEnv) && reply.Success? ==> r.1 == ParseLocation(reply.value)
  {
    if RequireTmux(tmuxEnv).Fail? then ([], Failure(NotInTmux))
    else match reply
      case Failure(_) => ([DisplayLocation], Failure(CommandFailed("get tmux location")))
      case Success(out) => ([DisplayLocation], ParseLocation(out))
  }

  /** Inside tmux, a pane with a plain session name is found from tmux's reply. */
  lemma CurrentLocationFindsPane(tmuxEnv: string, l: Location)
    requires InTmux(tmuxEnv) && PlainSession(l.session) && IndicesInRange(l)
    ensures CurrentLocation(tmuxEnv, Success(Reply(l) + "\n")).1 == Success(l)
  {
    ParseReply(l);
  }

  /** The commands `JumpTo` runs. */
  const DisplaySession: Argv := ["display-message", "-p", "#{session_name}"]

  function SwitchClient(session: string): Argv
  {
    ["switch-client", "-t", session]
  }

  function SelectWindow(l: Location): Argv
  {
    ["select-window", "-t", l.session + ":" + IntToDecimal(l.window)]
  }

  function SelectPane(l: Location): Argv
  {
    ["select-pane", "-t", LocationString(l)]
  }

  /** The commands after the session query: a switch only when the session differs. */
  function JumpSteps(l: Location, current: string): (steps: seq<Argv>)
    ensures |steps| >= 2 && steps[|steps| - 2] == SelectWindow(l) && steps[|steps| - 1] == SelectPane(l)
    ensures SwitchClient(l.session) in steps <==> TrimSpace(current) != l.session
  {
    (if TrimSpace(current) != l.session then [SwitchClient(l.session)] else [])
      + [SelectWindow(l), SelectPane(l)]
  }

  /** Runs the steps in order, stopping at the first that fails. */
  function RunSteps(steps: seq<Argv>, ok: Argv -> bool): (r: (seq<Argv>, Outcome<TmuxError>))
    ensures r.0 <= steps && (r.1.Pass? ==> r.0 == steps)
    ensures forall k :: 0 <= k < |r.0| - 1 ==> ok(r.0[k])
    ensures r.1.Pass? ==> forall k :: 0 <= k < |r.0| ==> ok(r.0[k])
    ensures r.1.Fail? ==> r.0 != [] && !ok(r.0[|r.0| - 1])
    ensures r.1.Pass? <==> forall k :: 0 <= k < |steps| ==> ok(steps[k])
    decreases |steps|
  {
    if steps == [] then ([], Pass)
    else if !ok(steps[0]) then ([steps[0]], Fail(CommandFailed(StepName(steps[0]))))
    else
      var rest := RunSteps(steps[1..], ok);
      assert forall k :: 1 <= k < |steps| ==> steps[k] == steps[1..][k - 1];
      ([steps[0]] + rest.0, rest.1)
  }

  /** The error text of a failed command, after its tmux verb. */
  function StepName(argv: Argv): string
  {
    if argv != [] && argv[0] == "switch-client" then "switch session"
    else if argv != [] && argv[0] == "select-window" then "select window"
    else "select pane"
  }

  /**
   * `JumpTo`: outside tmux it fails with `ErrNotInTmux` without running tmux; otherwise
   * it asks for the current session, switches only when the trimmed answer differs
   * from the target's session, then selects the window and the pane, stopping at the
   * first command that fails.
   */
  function JumpTo(tmuxEnv: string, l: Location, current: Result<string, string>, ok: Argv -> bool): (r: (seq<Argv>, Outcome<TmuxError>))
    ensures !InTmux(tmuxEnv) ==> r == ([], Fail(NotInTmux))
    ensures InTmux(tmuxEnv) ==> r.0 != [] && r.0[0] == DisplaySession
    ensures InTmux(tmuxEnv) && current.Failure? ==> r == ([DisplaySession], Fail(CommandFailed("get current session")))
    ensures r.1.Pass? <==> (
      InTmux(tmuxEnv) && current.Success?
        && r.0 == [DisplaySession] + JumpSteps(l, current.value)
        && forall k :: 1 <= k < |r.0| ==> ok(r.0[k]))
    ensures r.1.Pass? ==> r.0[|r.0| - 1] == SelectPane(l)
  {
    if RequireTmux(tmuxEnv).Fail? then ([], Fail(NotInTmux))
    else match current
      case Failure(_) => ([DisplaySession], Fail(CommandFailed("get current session")))
      case Success(cur) =>
        var run := RunSteps(JumpSteps(l, cur), ok);
        JumpToRun(l, cur, ok, run);
        ([DisplaySession] + run.0, run.1)
  }

  /** The link between a run of the steps and the commands `JumpTo` reports. */
  lemma JumpToRun(l: Location, cur: string, ok: Argv -> bool, run: (seq<Argv>, Outcome<TmuxError>))
    requires run == RunSteps(JumpSteps(l, cur), ok)
    ensures run.1.Pass? <==> (
      ([DisplaySession] + run.0 == [DisplaySession] + JumpSteps(l, cur))
        && forall k :: 1 <= k < |[DisplaySession] + run.0| ==> ok(([DisplaySession] + run.0)[k]))
  {
    var all := [DisplaySession] + run.0;
    assert forall k :: 1 <= k < |all| ==> all[k] == run.0[k - 1];
    if [DisplaySession] + run.0 == [DisplaySession] + JumpSteps(l, cur) {
      assert run.0 == all[1..] == JumpSteps(l, cur);
    }
  }

  /** Jumping to a pane of the current session never switches the client. */
  lemma JumpWithinSessionDoesNotSwitch(tmuxEnv: string, l: Location, cur: string, ok: Argv -> bool)
    requires TrimSpace(cur) == l.session
    ensures SwitchClient(l.session) !in JumpTo(tmuxEnv, l, Success(cur), ok).0
  {
    if InTmux(tmuxEnv) {
      var sc := SwitchClient(l.session);
      var steps := JumpSteps(l, cur);
      assert steps == [SelectWindow(l), SelectPane(l)];
      assert sc[0] != SelectWindow(l)[0] && sc[0] != SelectPane(l)[0];
      var run := RunSteps(steps, ok);
      NotRunIfNotStep(steps, ok, sc);
      assert sc[0] != DisplaySession[0];
      assert JumpTo(tmuxEnv, l, Success(cur), ok).0 == [DisplaySession] + run.0;
    }
  }

  /** Only the given steps are ever run. */
  lemma NotRunIfNotStep(steps: seq<Argv>, ok: Argv -> bool, argv: Argv)
    requires argv !in steps
    ensures argv !in RunSteps(steps, ok).0
  {
    var run := RunSteps(steps, ok).0;
    assert forall k :: 0 <= k < |run| ==> run[k] == steps[k];
  }

  /** The query `ListSessions` runs. */
  const ListSessionNames: Argv := ["list-sessions", "-F", "#{session_name}"]

  /** The non-empty lines, in order. */
  function NonEmptyLines(lines: seq<string>): (r: seq<string>)
    ensures |r| <= |lines|
    ensures forall s :: s in r <==> s in lines && s != ""
  {
    if lines == [] then []
    else
      var init := lines[..|lines| - 1];
      assert lines == init + [lines[|lines| - 1]];
      NonEmptyLines(init) + (if lines[|lines| - 1] != "" then [lines[|lines| - 1]] else [])
  }

  /** Filtering keeps the order: the lines of a concatenation are filtered piece by piece. */
  lemma {:induction false} NonEmptyLinesAppend(a: seq<string>, b: seq<string>)
    ensures NonEmptyLines(a + b) == NonEmptyLines(a) + NonEmptyLines(b)
    decreases |b|
  {
    if b == [] {
      assert a + b == a;
    } else {
      var init := b[..|b| - 1];
      assert (a + b)[..|a + b| - 1] == a + init;
      NonEmptyLinesAppend(a, init);
    }
  }

  /**
   * `ListSessions`, given the output of the query (or its failure): the non-empty lines
   * of the trimmed output, in order.
   */
  method ListSessions(out: Result<string, string>) returns (r: Result<seq<string>, TmuxError>)
    ensures out.Failure? ==> r == Failure(CommandFailed("list tmux sessions"))
    ensures out.Success? ==> r == Success(NonEmptyLines(Split(TrimSpace(out.value), '\n')))
  {
    if out.Failure? {
      return Failure(CommandFailed("list tmux sessions"));
    }
    var lines := Split(TrimSpace(out.value), '\n');
    var sessions: seq<string> := [];
    for i := 0 to |lines|
      invariant sessions == NonEmptyLines(lines[..i])
    {
      assert lines[..i + 1][..i] == lines[..i];
      assert NonEmptyLines(lines[..i + 1]) == NonEmptyLines(lines[..i]) + (if lines[i] != "" then [lines[i]] else []);
      if lines[i] != "" {
        sessions := sessions + [lines[i]];
      }
    }
    assert lines[..|lines|] == lines;
    return Success(sessions);
  }

  /** Every name `ListSessions` returns is a whole, non-empty line of the output. */
  lemma SessionNamesAreLines(out: string)
    ensures var names := NonEmptyLines(Split(TrimSpace(out), '\n'));
      forall i :: 0 <= i < |names| ==> names[i] != "" && '\n' !in names[i]
  {
    var lines := Split(TrimSpace(out), '\n');
    var names := NonEmptyLines(lines);
    forall i | 0 <= i < |names| ensures names[i] != "" && '\n' !in names[i] {
      assert names[i] in lines;
      var k :| 0 <= k < |lines| && lines[k] == names[i];
    }
  }

  /** A list with no empty entry is its own list of non-empty lines. */
  lemma {:induction false} NonEmptyLinesKeepsAll(lines: seq<string>)
    requires forall i :: 0 <= i < |lines| ==> lines[i] != ""
    ensures NonEmptyLines(lines) == lines
  {
    if lines != [] {
      var init := lines[..|lines| - 1];
      NonEmptyLinesKeepsAll(init);
      assert lines == init + [lines[|lines| - 1]];
    }
  }

  /** The last character of a join is the last character of its last non-empty part. */
  lemma {:induction false} JoinEndsWithLast(parts: seq<string>, sep: string)
    requires |parts| >= 1 && parts[|parts| - 1] != ""
    ensures var j := Join(parts, sep); j != [] && j[|j| - 1] == parts[|parts| - 1][|parts[|parts| - 1]| - 1]
  {
    if |parts| > 1 {
      JoinEndsWithLast(parts[1..], sep);
    }
  }

  /**
   * tmux prints one session name per line; names that are non-empty, free of newlines
   * and not padded with white space at either end of the listing come back exactly,
   * in order.
   */
  lemma ListSessionsReadsNames(names: seq<string>)
    requires forall i :: 0 <= i < |names| ==> names[i] != "" && '\n' !in names[i]
    requires names != [] ==> !IsSpace(names[0][0]) && !IsSpace(names[|names| - 1][|names[|names| - 1]| - 1])
    ensures NonEmptyLines(Split(TrimSpace(Join(names, "\n") + "\n"), '\n')) == names
  {
    if names == [] {
      assert Join(names, "\n") + "\n" == "\n";
      assert TrimSpace("\n") == "";
      assert Split("", '\n') == [""];
    } else {
      JoinTrimmed(names);
      SplitJoin(names, '\n');
      NonEmptyLinesKeepsAll(names);
    }
  }

  /** Trimming the listing of names removes the final newline and nothing else. */
  lemma JoinTrimmed(names: seq<string>)
    requires names != [] && forall i :: 0 <= i < |names| ==> names[i] != ""
    requires !IsSpace(names[0][0]) && !IsSpace(names[|names| - 1][|names[|names| - 1]| - 1])
    ensures TrimSpace(Join(names, "\n") + "\n") == Join(names, "\n")
  {
    var j := Join(names, "\n");
    JoinEndsWithLast(names, "\n");
    assert j[0] == names[0][0] by {
      if |names| > 1 {
        assert j == names[0] + "\n" + Join(names[1..], "\n");
      }
    }
    TrimSpaceTrailing(j, "\n");
  }
}
