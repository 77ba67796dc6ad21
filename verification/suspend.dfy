/**
 * Suspending and resuming a session from the keyboard: the terminal is put back into
 * cooked mode before the child's process group and then this process are stopped, and
 * raw mode is re-entered on the way back. The saved terminal state (`oldState`) is
 * nil exactly while the terminal is cooked. OS calls are recorded as effects; the
 * outcome of `makeRaw` and whether stdin is a terminal are inputs.
 */
module Suspend {
  import opened Wrappers

  /** The mode of the controlling terminal. */
  datatype Mode = Cooked | Raw

  /**
   * A saved terminal state, as `makeRaw` returns it: the mode the terminal was in before
   * it was made raw, which `restoreTerminal` puts back. The code never looks inside.
   */
  datatype ModeToken = ModeToken(saved: Mode)

  /** The OS calls made, in order. */
  datatype Effect =
    | RestoreTerminal(token: ModeToken)
    | StopGroup(pid: int)
    | StopSelf
    | MakeRawCall(succeeded: bool)
    | ContinueGroup(pid: int)
    | InheritSize

  /** The saved state together with the terminal's actual mode. */
  datatype Terminal = Terminal(oldState: Option<ModeToken>, mode: Mode)

  /** No saved state while cooked; while raw, a saved state that restores cooked mode. */
  predicate Consistent(t: Terminal)
  {
    match t.oldState
    case None => t.mode == Cooked
    case Some(token) => token.saved == Cooked && t.mode == Raw
  }

  /** `makeRaw` and keeping its result: on success the previous mode is saved and the terminal is raw. */
  function MakeRaw(t: Terminal, succeeded: bool): (r: Terminal)
    ensures succeeded ==> r == Terminal(Some(ModeToken(t.mode)), Raw)
    ensures !succeeded ==> r == t
  {
    if succeeded then Terminal(Some(ModeToken(t.mode)), Raw) else t
  }

  /** `restoreTerminal(oldState)` then `oldState = nil`: a nil state restores nothing. */
  function Restore(t: Terminal): (r: Terminal)
    ensures r.oldState == None
    ensures r.mode == (if t.oldState.Some? then t.oldState.value.saved else t.mode)
  {
    match t.oldState
    case None => t
    case Some(token) => Terminal(None, token.saved)
  }

  /**
   * The SIGCONT handler resumes only when nothing is saved and stdin is a terminal; a
   * failed `makeRaw` leaves everything as it was. Either way the terminal stays consistent.
   */
  function OnSigContStep(t: Terminal, isTerminal: bool, succeeded: bool): (t': Terminal)
    ensures t.oldState.Some? || !isTerminal ==> t' == t
    ensures t.oldState == None && isTerminal && succeeded ==> t' == Terminal(Some(ModeToken(t.mode)), Raw)
    ensures !succeeded ==> t' == t
    ensures Consistent(t) ==> Consistent(t')
  {
    if t.oldState == None && isTerminal then MakeRaw(t, succeeded) else t
  }

  /**
   * A suspend stops the process group with the terminal cooked and nothing saved, and
   * leaves the terminal consistent after resuming, whether or not `makeRaw` succeeds.
   */
  lemma SuspendKeepsConsistent(t: Terminal, succeeded: bool)
    requires Consistent(t)
    ensures Restore(t) == Terminal(None, Cooked)
    ensures Consistent(MakeRaw(Restore(t), succeeded))
  {
  }

  /** On the way out, restoring the saved state leaves a consistent terminal cooked. */
  lemma TeardownCooked(t: Terminal)
    requires Consistent(t)
    ensures Restore(t).mode == Cooked
  {
  }

  /**
   * Without the guard, a SIGCONT that arrives while raw mode is already saved would save
   * the raw mode in its place, and the final restore would leave the terminal raw.
   */
  lemma UnguardedResumeLeavesRaw(t: Terminal)
    requires Consistent(t) && t.oldState.Some?
    ensures !Consistent(MakeRaw(t, true))
    ensures Restore(MakeRaw(t, true)).mode == Raw
    ensures OnSigContStep(t, true, true) == t
  {
  }

  /** The calls `resume` makes: `makeRaw`, then SIGCONT to the child's group, then a size sync. */
  function ResumeEffects(childPid: int, hasPty: bool, succeeded: bool): (e: seq<Effect>)
    ensures |e| >= 1 && e[0] == MakeRawCall(succeeded)
    ensures ContinueGroup(childPid) in e <==> childPid > 0
    ensures InheritSize in e <==> hasPty
  {
    [MakeRawCall(succeeded)] + (if childPid > 0 then [ContinueGroup(childPid)] else []) + (if hasPty then [InheritSize] else [])
  }

  /** The calls `suspend` makes before it is stopped: restore, SIGSTOP to the child's group, SIGSTOP to itself. */
  function StopEffects(oldState: Option<ModeToken>, childPid: int): (e: seq<Effect>)
    ensures |e| >= 1 && e[|e| - 1] == StopSelf
    ensures StopGroup(childPid) in e <==> childPid > 0
    ensures (exists token :: RestoreTerminal(token) in e) <==> oldState.Some?
  {
    (if oldState.Some? then [RestoreTerminal(oldState.value)] else [])
      + (if childPid > 0 then [StopGroup(childPid)] else []) + [StopSelf]
  }

  /** `suspendState`, with the calls it has made. */
  class SuspendState {
    var oldState: Option<ModeToken>
    const childPid: int
    /** The agent's pseudo-terminal is open. */
    const hasPty: bool
    /** The terminal's actual mode. */
    var mode: Mode
    var effects: seq<Effect>

    function Current(): Terminal
      reads this
    {
      Terminal(oldState, mode)
    }

    ghost predicate Valid()
      reads this
    {
      Consistent(Current())
    }

    /** A cooked terminal with nothing saved. */
    constructor (childPid: int, hasPty: bool)
      ensures this.childPid == childPid && this.hasPty == hasPty
      ensures Current() == Terminal(None, Cooked) && effects == [] && Valid()
    {
      this.childPid := childPid;
      this.hasPty := hasPty;
      oldState := None;
      mode := Cooked;
      effects := [];
    }

    /** `resume`: re-enter raw mode, keeping the new state only if that succeeded; continue the child; sync the size. */
    method Resume(succeeded: bool)
      modifies this
      ensures Current() == MakeRaw(old(Current()), succeeded)
      ensures effects == old(effects) + ResumeEffects(childPid, hasPty, succeeded)
    {
      effects := effects + [MakeRawCall(succeeded)];
      if succeeded {
        oldState := Some(ModeToken(mode));
        mode := Raw;
      }
      if childPid > 0 {
        effects := effects + [ContinueGroup(childPid)];
      }
      if hasPty {
        effects := effects + [InheritSize];
      }
    }

    /** The first three steps of `suspend`: restore the terminal, clear the saved state, stop the group and itself. */
    method StopForSuspend()
      modifies this
      ensures Current() == Restore(old(Current()))
      ensures oldState == None
      ensures effects == old(effects) + StopEffects(old(oldState), childPid)
    {
      if oldState.Some? {
        effects := effects + [RestoreTerminal(oldState.value)];
        mode := oldState.value.saved;
      }
      oldState := None;
      if childPid > 0 {
        effects := effects + [StopGroup(childPid)];
      }
      effects := effects + [StopSelf];
    }

    /** `suspend`: stopped with the terminal cooked, then resumed. */
    method DoSuspend(succeeded: bool)
      requires Valid()
      modifies this
      ensures Valid()
      ensures Current() == MakeRaw(Terminal(None, Cooked), succeeded)
      ensures effects == old(effects) + StopEffects(old(oldState), childPid) + ResumeEffects(childPid, hasPty, succeeded)
    {
      SuspendKeepsConsistent(Current(), succeeded);
      StopForSuspend();
      Resume(succeeded);
    }

    /** The SIGCONT handler: resume only if nothing is saved and stdin is a terminal. */
    method OnSigCont(isTerminal: bool, succeeded: bool)
      requires Valid()
      modifies this
      ensures Valid()
      ensures Current() == OnSigContStep(old(Current()), isTerminal, succeeded)
      ensures effects == old(effects) + (if old(oldState) == None && isTerminal then ResumeEffects(childPid, hasPty, succeeded) else [])
    {
      if oldState == None && isTerminal {
        Resume(succeeded);
      }
    }

    /** The deferred `restoreTerminal(getOldState())` on the way out of the run: the terminal is left cooked. */
    method Teardown()
      requires Valid()
      modifies this
      ensures mode == Cooked && oldState == old(oldState)
      ensures effects == old(effects) + (if old(oldState).Some? then [RestoreTerminal(old(oldState).value)] else [])
    {
      if oldState.Some? {
        effects := effects + [RestoreTerminal(oldState.value)];
        mode := oldState.value.saved;
      }
    }
  }

  /**
   * Entering raw mode at the start of the run: only when stdin is a terminal, and a
   * failure of `makeRaw` ends the run with an error.
   */
  method EnterRawMode(ss: SuspendState, isTerminal: bool, succeeded: bool) returns (r: Outcome<string>)
    requires ss.Current() == Terminal(None, Cooked)
    modifies ss
    ensures ss.Valid()
    ensures r.Fail? <==> isTerminal && !succeeded
    ensures ss.Current() == (if isTerminal && succeeded then Terminal(Some(ModeToken(Cooked)), Raw) else old(ss.Current()))
    ensures ss.effects == old(ss.effects) + (if isTerminal then [MakeRawCall(succeeded)] else [])
  {
    if isTerminal {
      ss.effects := ss.effects + [MakeRawCall(succeeded)];
      if !succeeded {
        return Fail("set raw mode");
      }
      ss.oldState := Some(ModeToken(ss.mode));
      ss.mode := Raw;
    }
    return Pass;
  }
}
