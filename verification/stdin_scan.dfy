/**
 * The forwarding of a chunk read from standard input to the agent's terminal, with
 * Ctrl+Z intercepted: the bytes between Ctrl+Z bytes are written to the terminal in
 * order, and each Ctrl+Z byte suspends the session instead of being forwarded.
 */
module StdinScan {

  newtype byte = x: int | 0 <= x < 256

  /** Ctrl+Z. */
  const CtrlZ: byte := 0x1a

  /** What the scan does, in order: write bytes to the terminal, or suspend. */
  datatype Action = Write(data: seq<byte>) | Suspend

  /** One byte's effect: forwarded, or a suspend. */
  datatype ByteEffect = Forward(b: byte) | SuspendHere

  /** The intended effect of a chunk, byte by byte. */
  function PerByte(buf: seq<byte>): (r: seq<ByteEffect>)
    ensures |r| == |buf|
    ensures forall k :: 0 <= k < |buf| ==> r[k] == if buf[k] == CtrlZ then SuspendHere else Forward(buf[k])
  {
    seq(|buf|, k requires 0 <= k < |buf| => if buf[k] == CtrlZ then SuspendHere else Forward(buf[k]))
  }

  /** The effect of one action, byte by byte. */
  function Effects(a: Action): seq<ByteEffect>
  {
    match a
    case Write(data) => seq(|data|, k requires 0 <= k < |data| => Forward(data[k]))
    case Suspend => [SuspendHere]
  }

  /** The effect of a series of actions, byte by byte. */
  function Expand(actions: seq<Action>): seq<ByteEffect>
  {
    if actions == [] then [] else Expand(actions[..|actions| - 1]) + Effects(actions[|actions| - 1])
  }

  lemma ExpandAppend(actions: seq<Action>, a: Action)
    ensures Expand(actions + [a]) == Expand(actions) + Effects(a)
  {
    assert (actions + [a])[..|actions|] == actions;
  }

  /** The writes are non-empty and never follow one another: each is a maximal run of bytes. */
  ghost predicate Maximal(actions: seq<Action>)
  {
    (forall i :: 0 <= i < |actions| && actions[i].Write? ==> actions[i].data != [])
    && (forall i, j :: 0 <= i < j < |actions| && j == i + 1 ==> !(actions[i].Write? && actions[j].Write?))
  }

  /** The effect of a chunk splits where the chunk does. */
  lemma PerByteSplit(buf: seq<byte>, a: nat, b: nat)
    requires a <= b <= |buf|
    ensures PerByte(buf[..b]) == PerByte(buf[..a]) + PerByte(buf[a..b])
  {
  }

  /** A write of bytes without Ctrl+Z has the effect those bytes are meant to have. */
  lemma WriteEffects(data: seq<byte>)
    requires forall j :: 0 <= j < |data| ==> data[j] != CtrlZ
    ensures Effects(Write(data)) == PerByte(data)
  {
  }

  /** Appending a suspend, or a non-empty write after a suspend, keeps the writes maximal. */
  lemma MaximalAppend(actions: seq<Action>, a: Action)
    requires Maximal(actions)
    requires a.Write? ==> a.data != [] && (actions == [] || actions[|actions| - 1] == Suspend)
    ensures Maximal(actions + [a])
  {
  }

  /**
   * The scan of one chunk: a start index runs behind the scan; at each Ctrl+Z the bytes
   * since the start are written (if any) and the session is suspended, and the rest is
   * written at the end. The actions carry out the chunk's effect byte by byte, in order,
   * with maximal writes.
   */
  method ScanChunk(buf: seq<byte>) returns (actions: seq<Action>)
    ensures Expand(actions) == PerByte(buf)
    ensures Maximal(actions)
  {
    actions := [];
    var start := 0;
    var i := 0;
    while i < |buf|
      invariant 0 <= start <= i <= |buf|
      invariant Expand(actions) == PerByte(buf[..start])
      invariant forall j :: start <= j < i ==> buf[j] != CtrlZ
      invariant Maximal(actions)
      invariant actions != [] ==> actions[|actions| - 1] == Suspend
    {
      if buf[i] == CtrlZ {
        CtrlZStep(buf, start, i, actions);
        if i > start {
          actions := actions + [Write(buf[start..i])];
        }
        actions := actions + [Suspend];
        start := i + 1;
      }
      i := i + 1;
    }
    EndStep(buf, start, actions);
    if start < |buf| {
      actions := actions + [Write(buf[start..|buf|])];
    }
  }

  /** Writing the bytes since the start, none of them Ctrl+Z, carries the effect up to the scan index. */
  lemma FlushStep(buf: seq<byte>, start: nat, i: nat, actions: seq<Action>)
    requires start < i <= |buf|
    requires Expand(actions) == PerByte(buf[..start])
    requires forall j :: start <= j < i ==> buf[j] != CtrlZ
    requires Maximal(actions) && (actions != [] ==> actions[|actions| - 1] == Suspend)
    ensures Expand(actions + [Write(buf[start..i])]) == PerByte(buf[..i])
    ensures Maximal(actions + [Write(buf[start..i])])
  {
    FlushExpands(buf, start, i, actions);
    MaximalAppend(actions, Write(buf[start..i]));
  }

  lemma FlushExpands(buf: seq<byte>, start: nat, i: nat, actions: seq<Action>)
    requires start < i <= |buf|
    requires Expand(actions) == PerByte(buf[..start])
    requires forall j :: start <= j < i ==> buf[j] != CtrlZ
    ensures Expand(actions + [Write(buf[start..i])]) == PerByte(buf[..i])
  {
    ExpandAppend(actions, Write(buf[start..i]));
    WriteEffects(buf[start..i]);
    PerByteSplit(buf, start, i);
  }

  /** The actions after the bytes since the start are written, if there are any. */
  function Flushed(buf: seq<byte>, start: nat, i: nat, actions: seq<Action>): seq<Action>
    requires start <= i <= |buf|
  {
    if i > start then actions + [Write(buf[start..i])] else actions
  }

  /** At a Ctrl+Z, writing the bytes since the start and suspending carries the effect past it. */
  lemma CtrlZStep(buf: seq<byte>, start: nat, i: nat, actions: seq<Action>)
    requires start <= i < |buf| && buf[i] == CtrlZ
    requires Expand(actions) == PerByte(buf[..start])
    requires forall j :: start <= j < i ==> buf[j] != CtrlZ
    requires Maximal(actions) && (actions != [] ==> actions[|actions| - 1] == Suspend)
    ensures var next := Flushed(buf, start, i, actions) + [Suspend];
      Expand(next) == PerByte(buf[..i + 1]) && Maximal(next)
  {
    if i > start {
      FlushStep(buf, start, i, actions);
    }
    SuspendStep(buf, i, Flushed(buf, start, i, actions));
  }

  /** At the end of the chunk, writing the bytes since the start completes the chunk's effect. */
  lemma EndStep(buf: seq<byte>, start: nat, actions: seq<Action>)
    requires start <= |buf|
    requires Expand(actions) == PerByte(buf[..start])
    requires forall j :: start <= j < |buf| ==> buf[j] != CtrlZ
    requires Maximal(actions) && (actions != [] ==> actions[|actions| - 1] == Suspend)
    ensures var last := Flushed(buf, start, |buf|, actions);
      Expand(last) == PerByte(buf) && Maximal(last)
  {
    assert buf[..|buf|] == buf;
    if start < |buf| {
      FlushStep(buf, start, |buf|, actions);
    }
  }

  /** Suspending at a Ctrl+Z carries the effect past it. */
  lemma SuspendStep(buf: seq<byte>, i: nat, actions: seq<Action>)
    requires i < |buf| && buf[i] == CtrlZ
    requires Expand(actions) == PerByte(buf[..i]) && Maximal(actions)
    ensures Expand(actions + [Suspend]) == PerByte(buf[..i + 1])
    ensures Maximal(actions + [Suspend])
  {
    PerByteSplit(buf, i, i + 1);
    assert PerByte(buf[i..i + 1]) == [SuspendHere];
    ExpandAppend(actions, Suspend);
    MaximalAppend(actions, Suspend);
  }

  /** The chunk without its Ctrl+Z bytes. */
  function Removed(buf: seq<byte>): seq<byte>
  {
    if buf == [] then []
    else Removed(buf[..|buf| - 1]) + (if buf[|buf| - 1] == CtrlZ then [] else [buf[|buf| - 1]])
  }

  /** The number of Ctrl+Z bytes in the chunk. */
  function CountCtrlZ(buf: seq<byte>): nat
  {
    if buf == [] then 0 else CountCtrlZ(buf[..|buf| - 1]) + (if buf[|buf| - 1] == CtrlZ then 1 else 0)
  }

  /** The bytes a series of effects forwards. */
  function Forwarded(e: seq<ByteEffect>): seq<byte>
  {
    if e == [] then [] else Forwarded(e[..|e| - 1]) + (if e[|e| - 1].Forward? then [e[|e| - 1].b] else [])
  }

  /** The number of suspends in a series of effects. */
  function Suspends(e: seq<ByteEffect>): nat
  {
    if e == [] then 0 else Suspends(e[..|e| - 1]) + (if e[|e| - 1].SuspendHere? then 1 else 0)
  }

  /** The bytes the actions write, in order. */
  function Written(actions: seq<Action>): seq<byte>
  {
    if actions == [] then []
    else
      var last := actions[|actions| - 1];
      Written(actions[..|actions| - 1]) + (if last.Write? then last.data else [])
  }

  /** The number of suspend actions. */
  function SuspendCount(actions: seq<Action>): nat
  {
    if actions == [] then 0
    else SuspendCount(actions[..|actions| - 1]) + (if actions[|actions| - 1].Suspend? then 1 else 0)
  }

  lemma {:induction false} ForwardedAppend(a: seq<ByteEffect>, b: seq<ByteEffect>)
    ensures Forwarded(a + b) == Forwarded(a) + Forwarded(b)
    ensures Suspends(a + b) == Suspends(a) + Suspends(b)
    decreases |b|
  {
    if b == [] {
      assert a + b == a;
    } else {
      ForwardedAppend(a, b[..|b| - 1]);
      assert (a + b)[..|a + b| - 1] == a + b[..|b| - 1];
    }
  }

  /** The forwarded bytes of a chunk's effect are the chunk without Ctrl+Z, and its suspends count them. */
  lemma {:induction false} PerByteForwarded(buf: seq<byte>)
    ensures Forwarded(PerByte(buf)) == Removed(buf)
    ensures Suspends(PerByte(buf)) == CountCtrlZ(buf)
  {
    if buf != [] {
      PerByteForwarded(buf[..|buf| - 1]);
      assert PerByte(buf)[..|buf| - 1] == PerByte(buf[..|buf| - 1]);
    }
  }

  /** A write forwards exactly its bytes. */
  lemma {:induction false} WriteForwarded(data: seq<byte>)
    ensures Forwarded(Effects(Write(data))) == data
    ensures Suspends(Effects(Write(data))) == 0
  {
    if data != [] {
      WriteForwarded(data[..|data| - 1]);
      assert Effects(Write(data))[..|data| - 1] == Effects(Write(data[..|data| - 1]));
    }
  }

  /** The bytes the actions write are the bytes their effect forwards, and likewise for suspends. */
  lemma {:induction false} ExpandForwarded(actions: seq<Action>)
    ensures Forwarded(Expand(actions)) == Written(actions)
    ensures Suspends(Expand(actions)) == SuspendCount(actions)
  {
    if actions != [] {
      var init := actions[..|actions| - 1];
      var last := actions[|actions| - 1];
      ExpandForwarded(init);
      assert Expand(actions) == Expand(init) + Effects(last);
      ForwardedAppend(Expand(init), Effects(last));
      if last.Write? {
        WriteForwarded(last.data);
      } else {
        assert Effects(last)[..0] == [];
      }
    }
  }

  /**
   * What the scan of a chunk forwards is exactly the chunk with every Ctrl+Z removed, and
   * it suspends once per Ctrl+Z.
   */
  lemma ScanRemovesCtrlZ(buf: seq<byte>, actions: seq<Action>)
    requires Expand(actions) == PerByte(buf)
    ensures Written(actions) == Removed(buf)
    ensures SuspendCount(actions) == CountCtrlZ(buf)
  {
    ExpandForwarded(actions);
    PerByteForwarded(buf);
  }

  /**
   * Each suspend comes after every byte before its Ctrl+Z has been written: the actions
   * before a suspend stand for a prefix of the chunk that ends just before a Ctrl+Z, and
   * they write exactly that prefix without its Ctrl+Z bytes.
   */
  lemma SuspendAfterPrecedingBytes(buf: seq<byte>, actions: seq<Action>, i: nat)
    requires Expand(actions) == PerByte(buf)
    requires i < |actions| && actions[i] == Suspend
    ensures var p := |Expand(actions[..i])|;
      p < |buf| && buf[p] == CtrlZ &&
      Written(actions[..i]) == Removed(buf[..p]) && SuspendCount(actions[..i]) == CountCtrlZ(buf[..p])
  {
    var e := Expand(actions[..i]);
    var p := |e|;
    SuspendInEffect(actions, i);
    assert PerByte(buf)[p] == SuspendHere;
    assert PerByte(buf[..p]) == PerByte(buf)[..p];
    ScanRemovesCtrlZ(buf[..p], actions[..i]);
  }

  /** The effect of the actions before a suspend, then the suspend, begins the effect of all of them. */
  lemma SuspendInEffect(actions: seq<Action>, i: nat)
    requires i < |actions| && actions[i] == Suspend
    ensures |Expand(actions[..i])| < |Expand(actions)|
    ensures Expand(actions)[..|Expand(actions[..i])|] == Expand(actions[..i])
    ensures Expand(actions)[|Expand(actions[..i])|] == SuspendHere
  {
    var pre := actions[..i];
    assert actions[..i + 1] == pre + [Suspend];
    ExpandAppend(pre, Suspend);
    ExpandPrefix(actions, i + 1);
    var e := Expand(pre);
    assert Expand(actions)[..|e| + 1] == e + [SuspendHere];
    assert Expand(actions)[..|e|] == (e + [SuspendHere])[..|e|];
  }

  /** The effect of a prefix of the actions is a prefix of their effect. */
  lemma {:induction false} ExpandPrefix(actions: seq<Action>, n: nat)
    requires n <= |actions|
    ensures |Expand(actions[..n])| <= |Expand(actions)|
    ensures Expand(actions[..n]) == Expand(actions)[..|Expand(actions[..n])|]
    decreases |actions|
  {
    if n < |actions| {
      var init := actions[..|actions| - 1];
      ExpandPrefix(init, n);
      assert init[..n] == actions[..n];
    } else {
      assert actions[..n] == actions;
    }
  }
}
