/**
 * The polling loops of `wait` and `operationWait`: a pending list is
 * polled from the front, one API call per item, until it drains, a call
 * fails, or the 3-minute deadline passes. What each call observes is an
 * oracle indexed by the call's number; the 3-second ticker is counted in
 * rounds.
 */
module Polling {
  import opened Compute

  /** The 3-minute deadline, counted in 3-second ticks. */
  const MaxRounds: nat := 60

  /** How one poll of a pending list ends: the rest still pending, or the call that failed. */
  datatype PollEnd<T> = Polled(rest: seq<T>, next: nat) | PollFailed(call: nat)

  /** How a wait ends. `StillSpinning` is a run that has not ended within the calls allowed it. */
  datatype WaitEnd = Converged(next: nat) | CallFailed(call: nat) | TimedOut(next: nat) | StillSpinning

  /** API call `j` succeeded and showed `x` in the awaited state. */
  predicate Seen<T>(ok: (T, nat) -> bool, fails: nat -> bool, x: T, j: nat)
  {
    !fails(j) && ok(x, j)
  }

  /**
   * One tick of `operationWait` (and of the corrected `wait`): poll the head
   * of the pending list, one API call each; drop it when it has reached its
   * state, stop at the first one that has not.
   */
  function Poll<T>(items: seq<T>, ok: (T, nat) -> bool, fails: nat -> bool, k: nat): (r: PollEnd<T>)
    ensures r.Polled? ==> |r.rest| <= |items|
    ensures r.Polled? ==> r.next == k + (|items| - |r.rest|) + (if r.rest == [] then 0 else 1)
    ensures r.PollFailed? ==> k <= r.call < k + |items|
    decreases |items|
  {
    if items == [] then Polled([], k)
    else if fails(k) then PollFailed(k)
    else if ok(items[0], k) then Poll(items[1..], ok, fails, k + 1)
    else Polled(items, k + 1)
  }

  /** A poll drops pending items only from the front. */
  lemma {:induction false} PollDropsFront<T>(items: seq<T>, ok: (T, nat) -> bool, fails: nat -> bool, k: nat)
    requires Poll(items, ok, fails, k).Polled?
    ensures Poll(items, ok, fails, k).rest == items[|items| - |Poll(items, ok, fails, k).rest|..]
    decreases |items|
  {
    if items != [] && !fails(k) && ok(items[0], k) {
      PollDropsFront(items[1..], ok, fails, k + 1);
      var r := Poll(items[1..], ok, fails, k + 1);
      assert items[1..][|items| - 1 - |r.rest|..] == items[|items| - |r.rest|..];
    }
  }

  /** Every item a poll drops was seen in its awaited state by one of the poll's calls. */
  lemma {:induction false} PollSeen<T>(items: seq<T>, ok: (T, nat) -> bool, fails: nat -> bool, k: nat, i: nat)
    requires Poll(items, ok, fails, k).Polled?
    requires i < |items| - |Poll(items, ok, fails, k).rest|
    ensures exists j :: k <= j < Poll(items, ok, fails, k).next && Seen(ok, fails, items[i], j)
    decreases |items|
  {
    var r := Poll(items, ok, fails, k);
    assert Seen(ok, fails, items[0], k);
    if i > 0 {
      assert r == Poll(items[1..], ok, fails, k + 1);
      PollSeen(items[1..], ok, fails, k + 1, i - 1);
      var j :| k + 1 <= j < r.next && Seen(ok, fails, items[1..][i - 1], j);
      assert items[1..][i - 1] == items[i];
    }
  }

  /** Ticks `round`, `round + 1`, ... of a wait whose pending list is not empty. */
  function Rounds<T>(items: seq<T>, ok: (T, nat) -> bool, fails: nat -> bool, k: nat, round: nat): WaitEnd
    requires items != []
    decreases MaxRounds - round
  {
    if round >= MaxRounds then TimedOut(k)
    else match Poll(items, ok, fails, k)
      case PollFailed(c) => CallFailed(c)
      case Polled(rest, next) =>
        if rest == [] then Converged(next) else Rounds(rest, ok, fails, next, round + 1)
  }

  /** A wait that breaks out of the polling loop at the first item still pending. */
  function WaitSpec<T>(items: seq<T>, ok: (T, nat) -> bool, fails: nat -> bool, k: nat): WaitEnd
  {
    if items == [] then Converged(k) else Rounds(items, ok, fails, k, 0)
  }

  /** What a method reports when its wait ends as `e`: its outcome and the API call count after it. */
  function Report(e: WaitEnd, timeout: Error): Option<(Outcome, nat)>
  {
    match e
    case Converged(next) => Some((Pass, next))
    case CallFailed(c) => Some((Fail(ApiError(c)), c + 1))
    case TimedOut(next) => Some((Fail(timeout), next))
    case StillSpinning => None
  }

  /** The corrected wait always ends, within `|items| + MaxRounds` calls. */
  lemma {:induction false} RoundsEnd<T>(items: seq<T>, ok: (T, nat) -> bool, fails: nat -> bool, k: nat, round: nat)
    requires items != [] && round <= MaxRounds
    ensures !Rounds(items, ok, fails, k, round).StillSpinning?
    ensures Rounds(items, ok, fails, k, round).Converged? || Rounds(items, ok, fails, k, round).TimedOut? ==>
      k <= Rounds(items, ok, fails, k, round).next <= k + |items| + (MaxRounds - round)
    ensures Rounds(items, ok, fails, k, round).CallFailed? ==>
      k <= Rounds(items, ok, fails, k, round).call < k + |items| + (MaxRounds - round)
    decreases MaxRounds - round
  {
    if round < MaxRounds {
      var p := Poll(items, ok, fails, k);
      if p.Polled? && p.rest != [] {
        RoundsEnd(p.rest, ok, fails, p.next, round + 1);
        var e := Rounds(p.rest, ok, fails, p.next, round + 1);
        assert Rounds(items, ok, fails, k, round) == e;
        assert p.next + |p.rest| == k + |items| + 1;
      }
    }
  }

  /** When the corrected wait reports convergence, every item was seen in its awaited state. */
  lemma {:induction false} RoundsConverged<T>(items: seq<T>, ok: (T, nat) -> bool, fails: nat -> bool, k: nat, round: nat, i: nat)
    requires items != [] && i < |items|
    requires Rounds(items, ok, fails, k, round).Converged?
    ensures exists j :: k <= j < Rounds(items, ok, fails, k, round).next && Seen(ok, fails, items[i], j)
    decreases MaxRounds - round
  {
    var e := Rounds(items, ok, fails, k, round);
    var p := Poll(items, ok, fails, k);
    var dropped := |items| - |p.rest|;
    if i < dropped {
      PollSeen(items, ok, fails, k, i);
      var j :| k <= j < p.next && Seen(ok, fails, items[i], j);
      if p.rest != [] {
        RoundsEnd(p.rest, ok, fails, p.next, round + 1);
        assert e == Rounds(p.rest, ok, fails, p.next, round + 1);
        assert p.next <= e.next;
      } else {
        assert e.next == p.next;
      }
    } else {
      assert p.rest != [];
      assert e == Rounds(p.rest, ok, fails, p.next, round + 1);
      RoundsConverged(p.rest, ok, fails, p.next, round + 1, i - dropped);
      PollDropsFront(items, ok, fails, k);
      assert items[i] == p.rest[i - dropped];
      var j :| p.next <= j < e.next && Seen(ok, fails, p.rest[i - dropped], j);
    }
  }

  /**
   * The corrected wait, from any starting point, ends within
   * `|items| + MaxRounds` calls, and at once when nothing is pending.
   */
  lemma WaitSpecEnds<T>(items: seq<T>, ok: (T, nat) -> bool, fails: nat -> bool, k: nat)
    ensures var e := WaitSpec(items, ok, fails, k);
      && !e.StillSpinning?
      && (e.Converged? || e.TimedOut? ==> k <= e.next <= k + |items| + MaxRounds)
      && (e.CallFailed? ==> k <= e.call < k + |items| + MaxRounds)
      && (items == [] ==> e == Converged(k))
  {
    if items != [] {
      RoundsEnd(items, ok, fails, k, 0);
    }
  }


  // ---------------------------------------------------------------------
  // `wait` as written: the inner loop has no `break`

  /**
   * The inner loop of `wait` as written: it re-lists without pause until the
   * head name has converged, and the deadline is never looked at again.
   * `fuel` bounds the number of calls examined.
   */
  function Spin<T>(items: seq<T>, ok: (T, nat) -> bool, fails: nat -> bool, k: nat, fuel: nat): (e: WaitEnd)
    ensures !e.TimedOut?
    decreases fuel
  {
    if items == [] then Converged(k)
    else if fuel == 0 then StillSpinning
    else if fails(k) then CallFailed(k)
    else if ok(items[0], k) then Spin(items[1..], ok, fails, k + 1, fuel - 1)
    else Spin(items, ok, fails, k + 1, fuel - 1)
  }

  /** `wait` as written: the first tick comes before the deadline, and then it spins. */
  function WaitAsWritten<T>(items: seq<T>, ok: (T, nat) -> bool, fails: nat -> bool, k: nat, fuel: nat): (e: WaitEnd)
    ensures !e.TimedOut?
  {
    if items == [] then Converged(k) else Spin(items, ok, fails, k, fuel)
  }

  /**
   * As written, when the head name never converges and listing never
   * fails, `wait` makes call after call however many it is allowed.
   */
  lemma {:induction false} SpinsForever<T>(items: seq<T>, ok: (T, nat) -> bool, fails: nat -> bool, k: nat, fuel: nat)
    requires items != []
    requires forall j :: j >= k ==> !fails(j) && !ok(items[0], j)
    ensures Spin(items, ok, fails, k, fuel) == StillSpinning
    decreases fuel
  {
    if fuel > 0 {
      SpinsForever(items, ok, fails, k + 1, fuel - 1);
    }
  }

  /** The corrected wait, in the same situation, gives up after `MaxRounds` ticks. */
  lemma {:induction false} StuckRoundsTimeOut<T>(items: seq<T>, ok: (T, nat) -> bool, fails: nat -> bool, k: nat, round: nat)
    requires items != [] && round <= MaxRounds
    requires forall j :: j >= k ==> !fails(j) && !ok(items[0], j)
    ensures Rounds(items, ok, fails, k, round) == TimedOut(k + (MaxRounds - round))
    decreases MaxRounds - round
  {
    if round < MaxRounds {
      assert Poll(items, ok, fails, k) == Polled(items, k + 1);
      StuckRoundsTimeOut(items, ok, fails, k + 1, round + 1);
    }
  }

}
