/**
 * The dashboard's order of sessions: running ones (waiting or working) first, and
 * within each group the newest first. `sortSessions` copies the list into a fresh
 * array and sorts the copy in place; the model sorts by insertion, which, like Go's
 * `sort.Slice`, may put sessions that compare equal in either order.
 */
module SessionSort {
  import opened SessionTable

  /** A session whose agent is still running. */
  predicate Running(s: Session)
  {
    s.status == Waiting || s.status == Working
  }

  /** The `less` function given to `sort.Slice`. */
  predicate Less(x: Session, y: Session)
    ensures Running(x) && !Running(y) ==> Less(x, y)
    ensures !Running(x) && Running(y) ==> !Less(x, y)
    ensures Running(x) == Running(y) ==> (Less(x, y) <==> x.createdAt > y.createdAt)
  {
    if Running(x) != Running(y) then Running(x) else x.createdAt > y.createdAt
  }

  /** `less` is irreflexive and asymmetric: no session sorts before itself, and of two distinct ones at most one sorts first. */
  lemma LessStrict(x: Session, y: Session)
    ensures !Less(x, x)
    ensures Less(x, y) ==> !Less(y, x)
  {
  }

  /** `less` is a strict weak order, so "not after" is total and transitive. */
  lemma NotAfterTransitive(x: Session, y: Session, z: Session)
    requires !Less(y, x) && !Less(z, y)
    ensures !Less(z, x)
  {
  }

  /** Every running session comes before every session that is not running. */
  ghost predicate RunningFirst(s: seq<Session>)
  {
    forall i, j :: 0 <= i < j < |s| && Running(s[j]) ==> Running(s[i])
  }

  /** Among the running sessions, and among the others, the newest comes first. */
  ghost predicate NewestFirstInGroup(s: seq<Session>)
  {
    forall i, j :: 0 <= i < j < |s| && Running(s[i]) == Running(s[j]) ==> s[i].createdAt >= s[j].createdAt
  }

  /**
   * `sortSessions`: a reordering of the sessions in which every running session comes
   * before every other, and each group is ordered newest first.
   */
  method SortSessions(sessions: seq<Session>) returns (sorted: seq<Session>)
    ensures multiset(sorted) == multiset(sessions)
    ensures RunningFirst(sorted) && NewestFirstInGroup(sorted)
  {
    if |sessions| == 0 {
      return sessions;
    }
    var a := new Session[|sessions|](i requires 0 <= i < |sessions| => sessions[i]);
    assert a[..] == sessions;
    for i := 1 to a.Length
      invariant multiset(a[..]) == multiset(sessions)
      invariant forall p, q :: 0 <= p < q < i ==> !Less(a[q], a[p])
    {
      InsertAt(a, i);
    }
    sorted := a[..];
  }

  /** `s[..hi + 1]` is ordered, except perhaps for the element at `j`. */
  ghost predicate OrderedExcept(s: seq<Session>, hi: nat, j: nat)
    requires hi < |s|
  {
    forall p, q :: 0 <= p < q <= hi && p != j && q != j ==> !Less(s[q], s[p])
  }

  /** No element after `j`, up to `hi`, should come before the element at `j`. */
  ghost predicate NoneAfterBefore(s: seq<Session>, hi: nat, j: nat)
    requires j <= hi < |s|
  {
    forall q :: j < q <= hi ==> !Less(s[q], s[j])
  }

  /** Swapping the element at `j` with its predecessor, which it should come before, moves the gap down. */
  lemma SwapDown(s: seq<Session>, hi: nat, j: nat)
    requires 0 < j <= hi < |s|
    requires OrderedExcept(s, hi, j) && NoneAfterBefore(s, hi, j) && Less(s[j], s[j - 1])
    ensures var t := s[j - 1 := s[j]][j := s[j - 1]];
      OrderedExcept(t, hi, j - 1) && NoneAfterBefore(t, hi, j - 1)
  {
    var t := s[j - 1 := s[j]][j := s[j - 1]];
    assert !Less(t[j], t[j - 1]);
  }

  /** When the element at `j` should not come before its predecessor, the prefix is ordered. */
  lemma GapClosed(s: seq<Session>, hi: nat, j: nat)
    requires j <= hi < |s|
    requires OrderedExcept(s, hi, j) && NoneAfterBefore(s, hi, j)
    requires j > 0 ==> !Less(s[j], s[j - 1])
    ensures forall p, q :: 0 <= p < q <= hi ==> !Less(s[q], s[p])
  {
    forall p, q | 0 <= p < q <= hi
      ensures !Less(s[q], s[p])
    {
      if q == j && p < j - 1 {
        NotAfterTransitive(s[p], s[j - 1], s[j]);
      }
    }
  }

  /** Moves `a[i]` down past every element it should come before; `a[..i]` is already ordered. */
  method InsertAt(a: array<Session>, i: nat)
    requires i < a.Length
    requires forall p, q :: 0 <= p < q < i ==> !Less(a[q], a[p])
    modifies a
    ensures multiset(a[..]) == multiset(old(a[..]))
    ensures forall p, q :: 0 <= p < q <= i ==> !Less(a[q], a[p])
  {
    var j := i;
    while j > 0 && Less(a[j], a[j - 1])
      invariant 0 <= j <= i
      invariant multiset(a[..]) == multiset(old(a[..]))
      invariant OrderedExcept(a[..], i, j) && NoneAfterBefore(a[..], i, j)
    {
      SwapDown(a[..], i, j);
      a[j - 1], a[j] := a[j], a[j - 1];
      j := j - 1;
    }
    GapClosed(a[..], i, j);
  }
}
