/**
 * The activity monitor of a running agent: a two-state machine (working or waiting)
 * driven by output from the agent and by the ticks of a 100 ms ticker, which writes the
 * session's status to the store on each change of state. The clock is integer
 * milliseconds passed in with each event.
 */
module Activity {
  import opened Wrappers
  import opened SessionTable
  import Store

  /** How long the agent must be silent before the session goes back to waiting. */
  const IdleThresholdMs: int := 1000
  /** The period of the idle ticker. */
  const TickIntervalMs: int := 100
  /** The store's clock counts seconds. */
  const MillisPerSecond: int := 1000

  /** The monitor's fields `lastOutput` and `isWorking`. */
  datatype MonitorState = MonitorState(lastOutput: int, isWorking: bool)

  /**
   * `onOutput`: the output time is recorded and the state is working; the status
   * `working` is written only when the monitor was not working before.
   */
  function OnOutputStep(s: MonitorState, now: int): (r: (MonitorState, Option<string>))
    ensures r.0 == MonitorState(now, true)
    ensures r.1.Some? <==> !s.isWorking
    ensures r.1.Some? ==> r.1.value == Working
  {
    (MonitorState(now, true), if s.isWorking then None else Some(Working))
  }

  /** The monitor has been working and silent for longer than the threshold. */
  predicate IdleExpired(s: MonitorState, now: int)
  {
    s.isWorking && now - s.lastOutput > IdleThresholdMs
  }

  /**
   * One tick: when the monitor has been working and silent for longer than the
   * threshold it goes back to waiting and writes `waiting`; otherwise nothing changes.
   */
  function TickStep(s: MonitorState, now: int): (r: (MonitorState, Option<string>))
    ensures r.1.Some? <==> IdleExpired(s, now)
    ensures r.1.Some? ==> r.1.value == Waiting && r.0 == s.(isWorking := false)
    ensures r.1.None? ==> r.0 == s
  {
    if s.isWorking && now - s.lastOutput > IdleThresholdMs then (s.(isWorking := false), Some(Waiting))
    else (s, None)
  }

  /** The store after a status write, if any, for the session. */
  function Written(rows: seq<Record>, id: string, write: Option<string>, nowMs: int): seq<Record>
  {
    if write.Some? then Update(rows, id, SetStatus(write.value), nowMs / MillisPerSecond) else rows
  }

  /** What drives the monitor: output from the agent, or a tick of the ticker. */
  datatype Event = Output(at: int) | Tick(at: int)

  function Step(s: MonitorState, e: Event): (MonitorState, Option<string>)
  {
    match e
    case Output(t) => OnOutputStep(s, t)
    case Tick(t) => TickStep(s, t)
  }

  /** The state after a series of events, and the statuses written along the way. */
  function Replay(s: MonitorState, events: seq<Event>): (MonitorState, seq<string>)
    decreases |events|
  {
    if events == [] then (s, [])
    else
      var (s1, w1) := Step(s, events[0]);
      var (s2, w2) := Replay(s1, events[1..]);
      (s2, (if w1.Some? then [w1.value] else []) + w2)
  }

  /**
   * The written statuses alternate between `working` and `waiting`, starting from the
   * opposite of the initial state, and the last one written matches the final state: a
   * status is written only on a change of state.
   */
  lemma {:induction false} ReplayWritesFollowState(s: MonitorState, events: seq<Event>)
    ensures var (s', w) := Replay(s, events);
      (forall i :: 0 <= i < |w| ==> w[i] == Working || w[i] == Waiting)
      && (forall i :: 0 <= i < |w| - 1 ==> w[i] != w[i + 1])
      && (w != [] ==> w[0] == (if s.isWorking then Waiting else Working))
      && (w != [] ==> w[|w| - 1] == (if s'.isWorking then Working else Waiting))
      && (w == [] ==> s'.isWorking == s.isWorking)
    decreases |events|
  {
    if events != [] {
      var (s1, w1) := Step(s, events[0]);
      ReplayWritesFollowState(s1, events[1..]);
      var (s2, w2) := Replay(s1, events[1..]);
      var head := if w1.Some? then [w1.value] else [];
      assert w1.Some? ==> w1.value == (if s1.isWorking then Working else Waiting);
      assert w1.None? ==> s1.isWorking == s.isWorking;
      var w := head + w2;
      assert Replay(s, events) == (s2, w);
      forall i | 0 <= i < |w| - 1 ensures w[i] != w[i + 1] {
        if i > 0 || head == [] {
          assert w[i] == w2[i - |head|] && w[i + 1] == w2[i + 1 - |head|];
        }
      }
    }
  }

  /**
   * Ticks alone never record output; the monitor leaves working exactly when some tick
   * comes more than the threshold after the last output, and then writes `waiting` once.
   */
  lemma {:induction false} TicksOnly(s: MonitorState, events: seq<Event>)
    requires forall i :: 0 <= i < |events| ==> events[i].Tick?
    ensures Replay(s, events).0.lastOutput == s.lastOutput
    ensures Replay(s, events).0.isWorking ==
      (s.isWorking && forall i :: 0 <= i < |events| ==> events[i].at - s.lastOutput <= IdleThresholdMs)
    ensures Replay(s, events).1 ==
      (if s.isWorking && !Replay(s, events).0.isWorking then [Waiting] else [])
    decreases |events|
  {
    if events != [] {
      var s1 := TickStep(s, events[0].at).0;
      TicksOnly(s1, events[1..]);
      forall i | 0 <= i < |events[1..]| ensures events[1..][i] == events[i + 1] { }
      if s.isWorking && !IdleExpired(s, events[0].at) {
        assert forall i :: 0 <= i < |events| ==>
          ((events[i].at - s.lastOutput <= IdleThresholdMs) ==
           (i == 0 || events[1..][i - 1].at - s1.lastOutput <= IdleThresholdMs));
      }
    }
  }

  /** `n` ticks of the ticker, the first at `first`. */
  function Ticks(first: int, n: nat): (events: seq<Event>)
    ensures |events| == n && forall i :: 0 <= i < n ==> events[i] == Tick(first + i * TickIntervalMs)
  {
    seq(n, i requires 0 <= i < n => Tick(first + i * TickIntervalMs))
  }

  /**
   * A working monitor whose first tick after the last output comes within one tick
   * interval goes back to waiting by the eleventh tick: between threshold and threshold
   * plus one interval after the output.
   */
  lemma IdleByEleventhTick(s: MonitorState, first: int)
    requires s.isWorking && s.lastOutput < first <= s.lastOutput + TickIntervalMs
    ensures !Replay(s, Ticks(first, 11)).0.isWorking
    ensures Replay(s, Ticks(first, 11)).1 == [Waiting]
  {
    var events := Ticks(first, 11);
    TicksOnly(s, events);
    assert events[10].at - s.lastOutput > IdleThresholdMs;
  }

  /** No tick within the threshold after the last output ends the working state. */
  lemma WorkingWithinThreshold(s: MonitorState, first: int, n: nat)
    requires s.isWorking && n >= 1
    requires first + (n - 1) * TickIntervalMs - s.lastOutput <= IdleThresholdMs
    ensures Replay(s, Ticks(first, n)).0.isWorking
    ensures Replay(s, Ticks(first, n)).1 == []
  {
    var events := Ticks(first, n);
    TicksOnly(s, events);
    forall i | 0 <= i < n ensures events[i].at - s.lastOutput <= IdleThresholdMs {
      assert i * TickIntervalMs <= (n - 1) * TickIntervalMs;
    }
  }

  /** `activityMonitor`. */
  class ActivityMonitor {
    const sessionId: string
    const db: Store.DB
    var lastOutput: int
    var isWorking: bool
    /** The `done` channel has been closed. */
    var stopped: bool

    function State(): MonitorState
      reads this
    {
      MonitorState(lastOutput, isWorking)
    }

    /** `newActivityMonitor`: waiting, with the last output dated now. */
    constructor (sessionId: string, db: Store.DB, now: int)
      ensures this.sessionId == sessionId && this.db == db
      ensures State() == MonitorState(now, false) && !stopped
    {
      this.sessionId := sessionId;
      this.db := db;
      lastOutput := now;
      isWorking := false;
      stopped := false;
    }

    /** `onOutput`. */
    method OnOutput(now: int)
      requires db.Valid()
      modifies this, db
      ensures db.Valid() && stopped == old(stopped)
      ensures State() == OnOutputStep(old(State()), now).0
      ensures db.rows == Written(old(db.rows), sessionId, OnOutputStep(old(State()), now).1, now)
    {
      lastOutput := now;
      if !isWorking {
        isWorking := true;
        db.UpdateSessionStatus(sessionId, Working, now / MillisPerSecond);
      }
    }

    /** The body of the ticker loop, which runs until the monitor is stopped. */
    method Tick(now: int)
      requires !stopped && db.Valid()
      modifies this, db
      ensures db.Valid() && !stopped
      ensures State() == TickStep(old(State()), now).0
      ensures db.rows == Written(old(db.rows), sessionId, TickStep(old(State()), now).1, now)
    {
      if isWorking && now - lastOutput > IdleThresholdMs {
        isWorking := false;
        db.UpdateSessionStatus(sessionId, Waiting, now / MillisPerSecond);
      }
    }

    /** `stop`: closes `done`, which may happen only once. */
    method Stop()
      requires !stopped
      modifies this
      ensures stopped && State() == old(State())
    {
      stopped := true;
    }
  }
}
