/** Pulling a strand out of the toolhead with extruder and feeder together, where commands only queue motion. */
module TandemPull {
  import opened Wrappers

  // ---- What the machine is told, in order ----

  /** Queue a backward move, wait for the queue to empty, or tell the feeder to stop. */
  datatype Action = Move(mm: real) | Drain | StopRetract

  function Queued(log: seq<Action>): real {
    if log == [] then 0.0
    else
      var last := log[|log| - 1];
      Queued(log[..|log| - 1]) + if last.Move? then last.mm else 0.0
  }

  /** Distance that has certainly been moved: what was queued when the queue was last drained. */
  function Executed(log: seq<Action>): real {
    if log == [] then 0.0
    else if log[|log| - 1].Drain? then Queued(log)
    else Executed(log[..|log| - 1])
  }

  function Backlog(log: seq<Action>): real { Queued(log) - Executed(log) }

  const SEGMENT: real := 4.0
  const STALL_WINDOW: real := 8.0
  const POSTGEAR_CLEAR: real := 16.0

  /** At every moment the backlog is within one stall window, and no stop was sent over queued motion. */
  ghost predicate Paced(log: seq<Action>) {
    && (forall i :: 0 <= i <= |log| ==> Backlog(log[..i]) <= STALL_WINDOW)
    && (forall i :: 0 <= i < |log| && log[i].StopRetract? ==> Backlog(log[..i]) == 0.0)
  }

  lemma Then(log: seq<Action>, a: Action)
    ensures Queued(log + [a]) == Queued(log) + if a.Move? then a.mm else 0.0
    ensures Executed(log + [a]) == if a.Drain? then Queued(log) else Executed(log)
    ensures (Paced(log) && Backlog(log + [a]) <= STALL_WINDOW && (a.StopRetract? ==> Backlog(log) == 0.0))
            ==> Paced(log + [a])
  {
    var longer := log + [a];
    assert longer[..|longer| - 1] == log;
    if Paced(log) && Backlog(longer) <= STALL_WINDOW && (a.StopRetract? ==> Backlog(log) == 0.0) {
      forall i | 0 <= i <= |longer|
        ensures Backlog(longer[..i]) <= STALL_WINDOW
      {
        if i <= |log| {
          assert longer[..i] == log[..i];
        } else {
          assert longer[..i] == longer;
        }
      }
      forall i | 0 <= i < |longer| && longer[i].StopRetract?
        ensures Backlog(longer[..i]) == 0.0
      {
        assert longer[..i] == log[..i];
        assert log[..|log|] == log;
      }
    }
  }

  // ---- The pull ----

  datatype Outcome = Cleared | SlotError | CapReached | StrandNotMoving

  /**
   * Everything the loop can observe, by the number of the observation: the entry switch, the confirmed
   * slot error, and the post-gear switch (read once before the pull, then at each check).
   */
  datatype Trace = Trace(entry: nat -> bool, fault: nat -> bool, seat: nat -> Option<bool>)

  /**
   * While the first four segments are pulled the entry switch does not clear, no fault is reported, and the
   * post-gear switch reads filament at the start and at both checks.
   */
  ghost predicate Stuck(t: Trace) {
    && (forall k: nat :: k <= 4 ==> t.entry(k))
    && (forall k: nat :: k < 4 ==> !t.fault(k))
    && (forall k: nat :: k < 3 ==> t.seat(k) == Some(true))
  }

  /** At the j-th check the post-gear switch still reads filament although the pull was long enough to clear it. */
  ghost predicate Grinding(t: Trace, j: nat) { t.seat(0) == Some(true) && t.seat(j) == Some(true) && 8 * j >= 16 }

  /** The length of m segments. */
  function Length(m: nat): real { 4.0 * (m as real) }

  /** The first m segments are pulled: nothing ended the pull before, and none of the checks up to the n-th does. */
  ghost predicate Pulled(t: Trace, cap: real, m: nat, n: nat) {
    && (forall k: nat :: k < m ==> t.entry(k))
    && (forall k: nat :: k < m ==> !t.fault(k) && Length(k) < cap)
    && (forall j: nat :: 1 <= j <= n ==> !Grinding(t, j))
  }

  /** After m segments the cap is reached: the entry switch still read filament and no fault was seen. */
  ghost predicate AtCap(t: Trace, cap: real, m: nat) { t.entry(m) && !t.fault(m) && Length(m) >= cap }

  /** What each outcome says about the trace, when m segments were pulled and queued is all that was commanded. */
  ghost predicate Explains(outcome: Outcome, queued: real, t: Trace, cap: real, m: nat) {
    match outcome
    case SlotError =>
      Pulled(t, cap, m, m / 2) && t.entry(m) && t.fault(m) && queued == Length(m)
    case Cleared =>
      && Pulled(t, cap, m, m / 2) && queued == Length(m) + 4.0
      && (!t.entry(m) || (AtCap(t, cap, m) && !t.entry(m + 1)))
    case CapReached =>
      Pulled(t, cap, m, m / 2) && AtCap(t, cap, m) && t.entry(m + 1) && queued == Length(m)
    case StrandNotMoving =>
      m >= 4 && m % 2 == 0 && Pulled(t, cap, m, m / 2 - 1) && Grinding(t, m / 2) && queued == Length(m)
  }

  method Extract(cap: real, t: Trace) returns (outcome: Outcome, log: seq<Action>)
    ensures Paced(log)
    ensures Queued(log) < (if cap < 0.0 then 0.0 else cap) + 8.0
    ensures log != [] && log[|log| - 1].StopRetract? && Backlog(log) == 0.0
    ensures exists m :: Explains(outcome, Queued(log), t, cap, m)
    ensures outcome == CapReached ==> Executed(log) >= cap
    ensures outcome == StrandNotMoving ==> t.seat(0) == Some(true) && Executed(log) >= POSTGEAR_CLEAR
    ensures Stuck(t) && cap > 12.0 ==> outcome == StrandNotMoving && Executed(log) == 16.0
    ensures Stuck(t) && cap <= 12.0 ==> outcome == CapReached
  {
    hide Queued, Executed, Paced, Stuck, Pulled, Explains, AtCap, Length;
    log := [];
    Start();
    NothingPulled(t, cap);
    LengthGrows(0);
    var pulled, lastChecked := 0.0, 0.0;
    var startSeat := t.seat(0);
    var entryReads, faultReads, seatReads := 0, 0, 1;
    ghost var m: nat := 0;
    while t.entry(entryReads)
      invariant Paced(log) && Queued(log) == pulled && Executed(log) == lastChecked
      invariant 0.0 <= lastChecked && (pulled == lastChecked || pulled == lastChecked + SEGMENT)
      invariant pulled < (if cap < 0.0 then 0.0 else cap) + SEGMENT
      invariant entryReads == faultReads == m && pulled == Length(m)
      invariant lastChecked == Length(2 * (seatReads - 1)) && seatReads >= 1
      invariant Pulled(t, cap, m, seatReads - 1)
      decreases cap - pulled
    {
      CheckedHalf(m, seatReads - 1);
      entryReads := entryReads + 1;
      faultReads := faultReads + 1;
      if t.fault(faultReads - 1) {
        log := DrainAndStop(log);
        Ends(t, cap, SlotError, Queued(log), m);
        return SlotError, log;
      }
      if pulled >= cap {
        log := Send(log, Drain);
        lastChecked := pulled;
        entryReads := entryReads + 1;
        if !t.entry(entryReads - 1) {
          break;
        }
        log := Send(log, StopRetract);
        Ends(t, cap, CapReached, Queued(log), m);
        return CapReached, log;
      }
      log := Send(log, Move(SEGMENT));
      pulled := pulled + SEGMENT;
      OneMorePulled(t, cap, m, seatReads - 1);
      LengthGrows(m);
      m := m + 1;
      if pulled - lastChecked >= STALL_WINDOW {
        log := Send(log, Drain);
        var seatNow := t.seat(seatReads);
        seatReads := seatReads + 1;
        EightPerCheck(seatReads - 1);
        if startSeat == Some(true) && seatNow == Some(true) && pulled >= POSTGEAR_CLEAR {
          log := Send(log, StopRetract);
          Grinds(t, cap, Queued(log), m);
          return StrandNotMoving, log;
        }
        OneMoreCheck(t, cap, m, seatReads - 2);
        lastChecked := pulled;
      }
    }
    CheckedHalf(m, seatReads - 1);
    log := Send(log, Move(SEGMENT));
    log := DrainAndStop(log);
    outcome := Cleared;
    Ends(t, cap, Cleared, Queued(log), m);
  }

  lemma LengthGrows(m: nat)
    ensures Length(0) == 0.0 && Length(m + 1) == Length(m) + SEGMENT
  {
  }

  /** Every second segment ends in a check. */
  lemma CheckedHalf(m: nat, n: nat)
    ensures Length(m) == Length(2 * n) || Length(m) == Length(2 * n) + SEGMENT ==> n == m / 2
    ensures Length(2 * (n + 1)) == Length(2 * n) + STALL_WINDOW
  {
  }

  lemma EightPerCheck(j: nat)
    ensures Length(2 * j) >= POSTGEAR_CLEAR <==> 8 * j >= 16
  {
  }

  lemma NothingPulled(t: Trace, cap: real)
    ensures Pulled(t, cap, 0, 0)
  {
  }

  lemma OneMorePulled(t: Trace, cap: real, m: nat, n: nat)
    requires Pulled(t, cap, m, n) && t.entry(m) && !t.fault(m) && Length(m) < cap
    ensures Pulled(t, cap, m + 1, n)
  {
    hide Length, Grinding;
  }

  lemma OneMoreCheck(t: Trace, cap: real, m: nat, n: nat)
    requires Pulled(t, cap, m, n) && !Grinding(t, n + 1)
    ensures Pulled(t, cap, m, n + 1)
  {
    hide Length, Grinding;
  }

  /** No trace is explained in two ways, so the outcome and the distance are functions of what was observed. */
  lemma OutcomeIsDetermined(t: Trace, cap: real, a: Outcome, x: real, m: nat, b: Outcome, y: real, n: nat)
    requires Explains(a, x, t, cap, m) && Explains(b, y, t, cap, n)
    ensures a == b && x == y
  {
    NoEarlierEnd(t, cap, a, x, m, b, y, n);
    NoEarlierEnd(t, cap, b, y, n, a, x, m);
  }

  lemma NoEarlierEnd(t: Trace, cap: real, a: Outcome, x: real, m: nat, b: Outcome, y: real, n: nat)
    requires Explains(a, x, t, cap, m) && Explains(b, y, t, cap, n)
    ensures n <= m
  {
  }

  /** A strand that does not move is given up at sixteen millimetres, or at the cap when that comes first. */
  lemma StuckVerdict(t: Trace, cap: real, outcome: Outcome, queued: real, m: nat)
    requires Explains(outcome, queued, t, cap, m)
    ensures Stuck(t) && cap > 12.0 ==> outcome == StrandNotMoving && queued == 16.0
    ensures Stuck(t) && cap <= 12.0 ==> outcome == CapReached
    ensures outcome == StrandNotMoving ==> t.seat(0) == Some(true) && queued >= POSTGEAR_CLEAR
    ensures outcome == CapReached ==> queued >= cap
  {
    if Stuck(t) {
      assert Grinding(t, 2) && t.entry(3) && !t.fault(3);
      assert m <= 4 ==> t.entry(m);
      assert m < 4 ==> !t.fault(m) && t.entry(m + 1);
      assert m > 3 ==> Length(3) < cap;
    }
  }

  lemma Ends(t: Trace, cap: real, outcome: Outcome, queued: real, m: nat)
    requires Pulled(t, cap, m, m / 2) && outcome != StrandNotMoving
    requires queued == Length(m) + if outcome == Cleared then SEGMENT else 0.0
    requires outcome == SlotError ==> t.entry(m) && t.fault(m)
    requires outcome == Cleared || outcome == CapReached ==>
               || (outcome == Cleared && !t.entry(m))
               || (t.entry(m) && !t.fault(m) && Length(m) >= cap && t.entry(m + 1) == (outcome == CapReached))
    ensures Verdict(t, cap, outcome, queued, m)
  {
    hide Pulled, Length;
    assert Explains(outcome, queued, t, cap, m);
    StuckVerdict(t, cap, outcome, queued, m);
  }

  lemma Grinds(t: Trace, cap: real, queued: real, m: nat)
    requires m % 2 == 0 && m >= 4 && Pulled(t, cap, m, m / 2 - 1) && queued == Length(m) && Grinding(t, m / 2)
    ensures Verdict(t, cap, StrandNotMoving, queued, m)
  {
    hide Pulled, Length, Grinding;
    assert Explains(StrandNotMoving, queued, t, cap, m);
    StuckVerdict(t, cap, StrandNotMoving, queued, m);
  }

  /** All that is promised of an outcome. */
  ghost predicate Verdict(t: Trace, cap: real, outcome: Outcome, queued: real, m: nat) {
    && Explains(outcome, queued, t, cap, m)
    && (Stuck(t) && cap > 12.0 ==> outcome == StrandNotMoving && queued == 16.0)
    && (Stuck(t) && cap <= 12.0 ==> outcome == CapReached)
    && (outcome == StrandNotMoving ==> t.seat(0) == Some(true) && queued >= POSTGEAR_CLEAR)
    && (outcome == CapReached ==> queued >= cap)
  }

  lemma Start()
    ensures Paced([]) && Queued([]) == 0.0 && Executed([]) == 0.0
  {
  }

  method Send(log: seq<Action>, a: Action) returns (longer: seq<Action>)
    requires Paced(log) && Backlog(log) + (if a.Move? then a.mm else 0.0) <= STALL_WINDOW
    requires a.StopRetract? ==> Backlog(log) == 0.0
    ensures longer == log + [a] && Paced(longer)
    ensures Queued(longer) == Queued(log) + if a.Move? then a.mm else 0.0
    ensures Executed(longer) == if a.Drain? then Queued(log) else Executed(log)
  {
    hide Queued, Executed, Paced;
    Then(log, a);
    longer := log + [a];
  }

  /** Let the queue empty before the feeder stops. */
  method DrainAndStop(log: seq<Action>) returns (longer: seq<Action>)
    requires Paced(log) && Backlog(log) <= STALL_WINDOW
    ensures longer == log + [Drain, StopRetract] && Paced(longer)
    ensures Queued(longer) == Executed(longer) == Queued(log)
  {
    hide Queued, Executed, Paced;
    longer := Send(log, Drain);
    longer := Send(longer, StopRetract);
  }
}
