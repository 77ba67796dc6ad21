/**
 * The dashboard's state machine: how each message (a key, a resize, a finished load, a
 * tick) changes the dashboard's state, which commands it hands back to the Bubble Tea
 * runtime, which processes it kills or tmux panes it jumps to, and which rows it writes.
 * The step is specified by the function `Next` on a value `View` of the state; the class
 * `Dashboard` performs it in place and is proved to follow `Next`.
 */
module Dashboard {
  import opened Wrappers
  import opened SessionTable
  import opened SessionSort
  import Store
  import Tmux

  datatype Focus = FocusList | FocusInfo
  datatype ViewMode = ViewNormal | ViewTrash

  /** The messages `Update` handles; keys by the name Bubble Tea gives them (`"q"`, `"ctrl+c"`, `"tab"`, ...). */
  datatype Msg =
    | Key(key: string)
    | WindowSize(width: int, height: int)
    | PruneCompleted
    | SessionsLoaded(sessions: seq<Session>, err: Option<string>)
    | Tick

  /** Commands handed back to the runtime: quit, load the sessions of the current view, tick again in 2 seconds. */
  datatype Command = Quit | LoadSessions | TickAgain

  /** Actions taken outside the process: jump the tmux client to a pane, or send SIGKILL to a pid. */
  datatype Effect = JumpTo(location: Tmux.Location) | Kill(pid: int)

  /** The database write a key makes, if any. */
  datatype Write = NoWrite | MarkKilled(id: string) | SoftDelete(id: string) | Restore(id: string)

  /** The state `Update` reads and changes (the viewport and the jump target are not modelled). */
  datatype View = View(
    sessions: seq<Session>,
    selected: int,
    focus: Focus,
    showInfo: bool,
    viewMode: ViewMode,
    loading: bool,
    width: int,
    height: int,
    err: Option<string>)

  /** One step: the new state, the commands in batch order, the effects in order and the write. */
  datatype Transition = Transition(view: View, commands: seq<Command>, effects: seq<Effect>, write: Write)

  /**
   * What holds of every state the dashboard reaches: the selection is never negative and
   * lies within a non-empty list, and the info panel has the focus only while shown.
   */
  ghost predicate Wellformed(v: View)
  {
    0 <= v.selected
    && (|v.sessions| > 0 ==> v.selected < |v.sessions|)
    && (v.focus == FocusInfo ==> v.showInfo)
  }

  /** The guard of the actions on the selected session: the list has the focus and a session is selected. */
  predicate HasSelection(v: View)
  {
    v.focus == FocusList && |v.sessions| > 0 && 0 <= v.selected < |v.sessions|
  }

  function Selected(v: View): Session
    requires HasSelection(v)
  {
    v.sessions[v.selected]
  }

  /** The tmux pane a session runs in. */
  function LocationOf(s: Session): Tmux.Location
  {
    Tmux.Location(s.tmuxSession, s.tmuxWindow, s.tmuxPane)
  }

  function Stay(v: View): Transition
  {
    Transition(v, [], [], NoWrite)
  }

  function Toggle(f: Focus): Focus
  {
    if f == FocusList then FocusInfo else FocusList
  }

  /**
   * The key handlers of `Update`. A key keeps the dashboard well formed, never touches
   * the loading flag, the size or the error, and every write it asks for is followed by
   * a reload.
   */
  function KeyStep(v: View, key: string): (t: Transition)
    ensures Wellformed(v) ==> Wellformed(t.view)
    ensures t.view.loading == v.loading && t.view.width == v.width && t.view.height == v.height && t.view.err == v.err
    ensures t.write != NoWrite ==> t.commands == [LoadSessions]
  {
    if key == "q" || key == "ctrl+c" then
      Transition(v, [Quit], [], NoWrite)
    else if key == "tab" then
      Stay(if v.showInfo then v.(focus := Toggle(v.focus)) else v)
    else if key == "j" || key == "down" then
      Stay(if v.focus == FocusList && v.selected < |v.sessions| - 1 then v.(selected := v.selected + 1) else v)
    else if key == "k" || key == "up" then
      Stay(if v.focus == FocusList && v.selected > 0 then v.(selected := v.selected - 1) else v)
    else if key == "enter" then
      if v.viewMode == ViewNormal && HasSelection(v) then
        Transition(v, [], [JumpTo(LocationOf(Selected(v)))], NoWrite)
      else Stay(v)
    else if key == "r" then
      Transition(v, [LoadSessions], [], NoWrite)
    else if key == "i" then
      var shown := !v.showInfo;
      Stay(v.(showInfo := shown, focus := if !shown && v.focus == FocusInfo then FocusList else v.focus))
    else if key == "s" then
      if v.viewMode == ViewNormal && HasSelection(v) && Running(Selected(v)) then
        var s := Selected(v);
        Transition(v, [LoadSessions], if s.pid > 0 then [Kill(s.pid)] else [], MarkKilled(s.id))
      else Stay(v)
    else if key == "D" then
      if v.viewMode == ViewNormal && HasSelection(v) then
        var s := Selected(v);
        Transition(v, [LoadSessions], if s.pid > 0 && Running(s) then [Kill(s.pid)] else [], SoftDelete(s.id))
      else Stay(v)
    else if key == "T" then
      var mode := if v.viewMode == ViewNormal then ViewTrash else ViewNormal;
      Transition(v.(viewMode := mode, selected := 0), [LoadSessions], [], NoWrite)
    else if key == "R" then
      if v.viewMode == ViewTrash && HasSelection(v) then
        Transition(v, [LoadSessions], [], Restore(Selected(v).id))
      else Stay(v)
    else Stay(v)
  }

  /**
   * `Update`: one message handled. A load installs `sorted`, the loaded sessions in the
   * dashboard's order, and pulls the selection back onto a list that shrank. Every step
   * keeps the dashboard well formed, whatever list a load brings; nothing but a key
   * press writes, and every write is followed by a reload.
   */
  function Next(v: View, msg: Msg, sorted: seq<Session>): (t: Transition)
    ensures Wellformed(v) ==> Wellformed(t.view)
    ensures t.write != NoWrite ==> msg.Key? && t.commands == [LoadSessions]
  {
    match msg
    case Key(key) => KeyStep(v, key)
    case WindowSize(w, h) => Stay(v.(width := w, height := h))
    case PruneCompleted => Stay(v)
    case SessionsLoaded(_, err) =>
      var selected := if v.selected >= |sorted| && |sorted| > 0 then |sorted| - 1 else v.selected;
      Stay(v.(loading := false, err := err, sessions := sorted, selected := selected))
    case Tick => Transition(v, [LoadSessions, TickAgain], [], NoWrite)
  }

  /** The rows after a write. */
  function Written(rows: seq<Record>, w: Write, now: int): seq<Record>
  {
    match w
    case NoWrite => rows
    case MarkKilled(id) => Update(rows, id, SetStatus(Killed), now)
    case SoftDelete(id) => Update(rows, id, MarkDeleted, now)
    case Restore(id) => Update(rows, id, ClearDeleted, now)
  }

  /** The check `selected < len(sessions)` of the action keys is implied by the rest of their guard. */
  lemma SelectionGuardRedundant(v: View)
    requires Wellformed(v)
    ensures HasSelection(v) <==> v.focus == FocusList && |v.sessions| > 0
  {
  }

  /** `j` and `k` move the selection by one within the list, and only while the list has the focus. */
  lemma MoveSelection(v: View, key: string)
    requires Wellformed(v) && key in {"j", "down", "k", "up"}
    ensures var v' := Next(v, Key(key), []).view;
      v'.sessions == v.sessions && (|v.sessions| > 0 ==> 0 <= v'.selected < |v.sessions|)
      && (v.focus == FocusInfo ==> v' == v)
      && (key in {"j", "down"} && v.focus == FocusList ==>
            v'.selected == if v.selected + 1 < |v.sessions| then v.selected + 1 else v.selected)
      && (key in {"k", "up"} && v.focus == FocusList ==>
            v'.selected == if v.selected > 0 then v.selected - 1 else v.selected)
  {
  }

  /** `tab` does nothing while the info panel is hidden and is undone by a second `tab` while it is shown. */
  lemma TabTwice(v: View)
    ensures !v.showInfo ==> Next(v, Key("tab"), []) == Stay(v)
    ensures v.showInfo ==>
      Next(v, Key("tab"), []).view.focus != v.focus
      && Next(Next(v, Key("tab"), []).view, Key("tab"), []).view == v
  {
  }

  /** Hiding the info panel with `i` gives the focus back to the list. */
  lemma HideInfoFocusesList(v: View)
    requires v.showInfo
    ensures var v' := Next(v, Key("i"), []).view;
      !v'.showInfo && v'.focus == FocusList && v'.sessions == v.sessions && v'.selected == v.selected
  {
  }

  /** `T` switches between the sessions and the trash, selects the first row and reloads; twice gives the first view back. */
  lemma ToggleTrashTwice(v: View)
    ensures var t := Next(v, Key("T"), []);
      t.view.viewMode != v.viewMode && t.view.selected == 0 && t.commands == [LoadSessions]
      && Next(t.view, Key("T"), []).view == v.(selected := 0)
  {
  }

  /** A load replaces the list and pulls the selection onto its last row if it was past it. */
  lemma LoadClampsSelection(v: View, sessions: seq<Session>, err: Option<string>, sorted: seq<Session>)
    requires Wellformed(v)
    ensures var v' := Next(v, SessionsLoaded(sessions, err), sorted).view;
      v'.sessions == sorted && !v'.loading && v'.err == err
      && (sorted != [] ==> v'.selected == if v.selected < |sorted| then v.selected else |sorted| - 1)
      && (sorted == [] ==> v'.selected == v.selected)
  {
  }

  /**
   * The keys that act on the selected session act on no other, only while the list has
   * the focus, and only in their view: jump, stop and delete in the normal view, restore
   * in the trash.
   */
  lemma ActionsTargetSelection(v: View, key: string)
    requires Wellformed(v)
    ensures var t := Next(v, Key(key), []);
      (t.write != NoWrite || t.effects != []) ==>
        HasSelection(v)
        && (t.write.MarkKilled? || t.write.SoftDelete? ==> v.viewMode == ViewNormal && t.write.id == Selected(v).id)
        && (t.write.Restore? ==> v.viewMode == ViewTrash && t.write.id == Selected(v).id)
        && (forall e :: e in t.effects ==> v.viewMode == ViewNormal)
  {
  }

  /**
   * Only a running session with a positive pid is ever sent SIGKILL, and `s` on a session
   * that is not running does nothing at all.
   */
  lemma KillsOnlyRunning(v: View, msg: Msg, sorted: seq<Session>)
    requires Wellformed(v)
    ensures var t := Next(v, msg, sorted);
      forall e :: e in t.effects && e.Kill? ==>
        HasSelection(v) && e.pid == Selected(v).pid && e.pid > 0 && Running(Selected(v))
    ensures HasSelection(v) && !Running(Selected(v)) ==> Next(v, Key("s"), sorted) == Stay(v)
  {
  }

  /** Stopping a running session records it as killed and changes nothing else in its row but the update time. */
  lemma StopMarksKilled(v: View, rows: seq<Record>, now: int)
    requires Wellformed(v) && UniqueIds(rows)
    requires v.viewMode == ViewNormal && HasSelection(v) && Running(Selected(v))
    ensures var rows' := Written(rows, Next(v, Key("s"), []).write, now);
      forall k :: 0 <= k < |rows| ==>
        rows'[k] == if rows[k].id == Selected(v).id then rows[k].(status := Killed, updatedAt := now) else rows[k]
  {
  }

  /** The dashboard. */
  class Dashboard {
    const db: Store.DB
    var sessions: seq<Session>
    var selected: int
    var focus: Focus
    var showInfo: bool
    var viewMode: ViewMode
    var loading: bool
    var width: int
    var height: int
    var err: Option<string>
    /** The processes killed and the panes jumped to, in order. */
    var effects: seq<Effect>

    function State(): View
      reads this
    {
      View(sessions, selected, focus, showInfo, viewMode, loading, width, height, err)
    }

    ghost predicate Valid()
      reads this, db
    {
      Wellformed(State()) && db.Valid()
    }

    /** `NewDashboard`: loading, the list focused, the info panel hidden, the normal view. */
    constructor (database: Store.DB)
      requires database.Valid()
      ensures Valid() && db == database
      ensures State() == View([], 0, FocusList, false, ViewNormal, true, 0, 0, None) && effects == []
    {
      db := database;
      sessions := [];
      selected := 0;
      focus := FocusList;
      showInfo := false;
      viewMode := ViewNormal;
      loading := true;
      width := 0;
      height := 0;
      err := None;
      effects := [];
    }

    /**
     * `loadSessions`: the deleted sessions, most recently deleted first, in the trash
     * view; otherwise every session not deleted, newest first.
     */
    method Load() returns (msg: Msg)
      requires Valid()
      ensures msg.SessionsLoaded? && msg.err == None
      ensures viewMode == ViewTrash ==>
        msg.sessions == Listed(db.rows, Order(db.rows, HasStatus(Deleted), ByDeletedAt, |db.rows|))
      ensures viewMode == ViewNormal ==>
        msg.sessions == Listed(db.rows, Order(db.rows, NotDeleted, ByCreatedAt, |db.rows|))
    {
      var list: seq<Session>;
      if viewMode == ViewTrash {
        list := db.ListDeletedSessions();
      } else {
        list := db.ListSessions("");
      }
      return SessionsLoaded(list, None);
    }

    /** The database call a write stands for. */
    method Perform(w: Write, now: int)
      requires db.Valid()
      modifies db
      ensures db.Valid() && db.rows == Written(old(db.rows), w, now)
    {
      match w
      case NoWrite =>
      case MarkKilled(id) => db.UpdateSessionStatus(id, Killed, now);
      case SoftDelete(id) => db.SoftDeleteSession(id, now);
      case Restore(id) => db.RestoreSession(id, now);
    }

    /** Takes on the state of a transition, records its effects and makes its write. */
    method Take(t: Transition, now: int)
      requires Valid() && Wellformed(t.view)
      requires t.view.loading == loading && t.view.width == width && t.view.height == height && t.view.err == err
      modifies this, db
      ensures Valid()
      ensures State() == t.view && effects == old(effects) + t.effects && db.rows == Written(old(db.rows), t.write, now)
    {
      sessions, selected, focus, showInfo, viewMode := t.view.sessions, t.view.selected, t.view.focus, t.view.showInfo, t.view.viewMode;
      effects := effects + t.effects;
      Perform(t.write, now);
    }

    /**
     * `Update`: the state after the message is `Next`'s, a load sorting the sessions
     * running first and newest first; the effects and the write are carried out.
     */
    method Update(msg: Msg, now: int) returns (cmds: seq<Command>)
      requires Valid()
      modifies this, db
      ensures Valid()
      ensures msg.SessionsLoaded? ==>
        multiset(sessions) == multiset(msg.sessions) && RunningFirst(sessions) && NewestFirstInGroup(sessions)
      ensures var t := Next(old(State()), msg, sessions);
        State() == t.view && cmds == t.commands && effects == old(effects) + t.effects
        && db.rows == Written(old(db.rows), t.write, now)
    {
      cmds := [];
      match msg
      case Key(key) =>
        var t := KeyStep(State(), key);
        Take(t, now);
        cmds := t.commands;
      case WindowSize(w, h) =>
        width, height := w, h;
      case PruneCompleted =>
      case SessionsLoaded(list, e) =>
        loading := false;
        err := e;
        sessions := SortSessions(list);
        if selected >= |sessions| && |sessions| > 0 {
          selected := |sessions| - 1;
        }
      case Tick =>
        cmds := [LoadSessions, TickAgain];
    }
  }
}
