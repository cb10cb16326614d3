/** Runs over any number of units at once, each of its own generation: busy says which stay busy while assisting. */
module AssistRuns {
  import opened Wrappers
  import opened AssistClaims
  import opened AssistRestore

  datatype World = World(units: seq<Assist>, current: Option<int>)

  datatype Event =
    | BeatEvent(unit: nat, beat: Beat)
    | ConnectEvent(unit: nat)
    | CallEvent(unit: nat, call: Call)
    | ToolEvent(current: Option<int>)

  function NextWorld(w: World, e: Event, busy: nat -> bool, lookup: Lookup): World {
    if e.ToolEvent? then w.(current := e.current)
    else if e.unit >= |w.units| then w
    else
      var s := w.units[e.unit];
      var t := match e
               case BeatEvent(unit, beat) => Heartbeat(s, beat, busy(unit), w.current, unit, lookup).after
               case ConnectEvent(unit) => Connect(s, w.current, unit, lookup).0
               case CallEvent(unit, call) => AssistClaims.Step(s, call, busy(unit));
      w.(units := w.units[e.unit := t])
  }

  /** A restore frame on the wire: under which loaded tool, from which unit, for which slot. */
  datatype Sent = Sent(current: Option<int>, unit: nat, slot: int, reportedEmpty: bool)

  function SentBy(w: World, e: Event, busy: nat -> bool, lookup: Lookup): Option<Sent> {
    if e.BeatEvent? && e.unit < |w.units| then
      var frame := Heartbeat(w.units[e.unit], e.beat, busy(e.unit), w.current, e.unit, lookup).effect.frame;
      if frame.Some? then Some(Sent(w.current, e.unit, frame.value, frame.value in e.beat.emptySlots)) else None
    else None
  }

  function AllSent(w: World, events: seq<Event>, busy: nat -> bool, lookup: Lookup): seq<Sent>
    decreases |events|
  {
    if events == [] then []
    else
      var now := SentBy(w, events[0], busy, lookup);
      (if now.Some? then [now.value] else [])
      + AllSent(NextWorld(w, events[0], busy, lookup), events[1..], busy, lookup)
  }

  predicate NoneLoading(w: World) { forall k :: 0 <= k < |w.units| ==> w.units[k].loading < 0 }

  predicate SameBudget(s: Assist, t: Assist) { t.loading == s.loading && t.attempts == s.attempts }

  lemma GuardKeepsBudget(s: Assist, keep: int, busy: bool, waited: bool)
    ensures SameBudget(s, EnsureOff(s, keep, busy, waited).0)
  {
  }

  lemma EnableKeepsBudget(s: Assist, slot: int, busy: bool, waited: bool, position: Option<int>, answer: Answer)
    ensures SameBudget(s, Enable(s, slot, busy, waited, position, answer))
  {
  }

  lemma CallKeeps(s: Assist, call: Call, busy: bool)
    ensures SameBudget(s, AssistClaims.Step(s, call, busy))
  {
    hide AcceptedAt, EnsureOff, Enable;
    match call
    case EnableCall(slot, waited, position, answer) => EnableKeepsBudget(s, slot, busy, waited, position, answer);
    case StartRollbackCall(slot, waited, answers) => GuardKeepsBudget(s, slot, busy, waited);
    case MotionCall(waited) => GuardKeepsBudget(s, -1, busy, waited);
    case _ =>
  }

  lemma BeatKeepsLoading(s: Assist, beat: Beat, busy: bool, current: Option<int>, k: nat, lookup: Lookup)
    ensures Heartbeat(s, beat, busy, current, k, lookup).after.loading == s.loading
  {
    hide IsStale;
  }

  lemma KeepsLoading(w: World, e: Event, busy: nat -> bool, lookup: Lookup)
    requires NoneLoading(w)
    ensures NoneLoading(NextWorld(w, e, busy, lookup))
  {
    hide AssistClaims.Step, Heartbeat, IsStale;
    if !e.ToolEvent? && e.unit < |w.units| {
      var s := w.units[e.unit];
      match e
      case BeatEvent(unit, beat) => BeatKeepsLoading(s, beat, busy(unit), w.current, unit, lookup);
      case CallEvent(unit, call) => CallKeeps(s, call, busy(unit));
      case ConnectEvent(unit) =>
    }
  }

  /** Frames go only to the loaded tool's own unit and slot, never to a slot reported empty. */
  predicate Rightful(f: Sent, lookup: Lookup) {
    !f.reportedEmpty && (f.current.Some? ==> f.current.value >= 0 && lookup(f.current.value) == Some((f.unit, f.slot)))
  }

  lemma FrameIsRightful(w: World, e: Event, busy: nat -> bool, lookup: Lookup)
    requires NoneLoading(w)
    ensures var f := SentBy(w, e, busy, lookup); f.Some? ==> Rightful(f.value, lookup)
  {
  }

  lemma {:induction false} FramesAreRightful(w: World, events: seq<Event>, busy: nat -> bool, lookup: Lookup)
    requires NoneLoading(w)
    ensures forall f :: f in AllSent(w, events, busy, lookup) ==> Rightful(f, lookup)
    decreases |events|
  {
    hide NextWorld, SentBy, Rightful, NoneLoading;
    if events != [] {
      FrameIsRightful(w, events[0], busy, lookup);
      KeepsLoading(w, events[0], busy, lookup);
      FramesAreRightful(NextWorld(w, events[0], busy, lookup), events[1..], busy, lookup);
    }
  }

  /** Across all units, frames sent while one tool was readably loaded all go to one unit and slot. */
  lemma OneTargetPerTool(w: World, events: seq<Event>, busy: nat -> bool, lookup: Lookup, i: nat, j: nat)
    requires NoneLoading(w)
    requires var sent := AllSent(w, events, busy, lookup);
             i < |sent| && j < |sent| && sent[i].current.Some? && sent[i].current == sent[j].current
    ensures var sent := AllSent(w, events, busy, lookup);
            sent[i].unit == sent[j].unit && sent[i].slot == sent[j].slot && !sent[i].reportedEmpty
  {
    hide AllSent;
    FramesAreRightful(w, events, busy, lookup);
    var sent := AllSent(w, events, busy, lookup);
    assert sent[i] in sent && sent[j] in sent;
  }

  // ---- The attempt budget ----

  function CountAfter(s: Assist, e: Event, k: nat, w: World, busy: nat -> bool, lookup: Lookup, n: nat): nat {
    if e.ToolEvent? || e.unit != k then n
    else
      match e
      case BeatEvent(unit, beat) =>
        var h := Heartbeat(s, beat, busy(k), w.current, k, lookup);
        var tried := (if h.first then 0 else n) + (if h.effect.attempted then 1 else 0);
        if h.effect.reset then 0 else tried
      case ConnectEvent(unit) => if Connect(s, w.current, k, lookup).1 then 0 else n
      case CallEvent(unit, call) => n
  }

  /** The most attempts unit k has made at any moment of the run since its counter was last reset. */
  ghost predicate NeverMoreThan(bound: nat, w: World, events: seq<Event>, k: nat, busy: nat -> bool,
                                lookup: Lookup, n: nat)
    requires k < |w.units|
    decreases |events|
  {
    n <= bound && (events != [] ==>
      NeverMoreThan(bound, NextWorld(w, events[0], busy, lookup), events[1..], k, busy, lookup,
                    CountAfter(w.units[k], events[0], k, w, busy, lookup, n)))
  }

  lemma BeatCount(s: Assist, beat: Beat, busy: bool, current: Option<int>, k: nat, lookup: Lookup, n: nat)
    requires n <= s.attempts && n <= MAX_ATTEMPTS
    ensures var h := Heartbeat(s, beat, busy, current, k, lookup);
            var tried := (if h.first then 0 else n) + (if h.effect.attempted then 1 else 0);
            var m := if h.effect.reset then 0 else tried;
            m <= h.after.attempts && m <= MAX_ATTEMPTS
  {
    hide IsStale;
    var (t, queued) := ApplyStatus(s, beat, busy);
    var (u, lost) := Reconcile(t, busy);
    assert queued ==> t.attempts == 0;
    assert lost ==> u.attempts == 0;
  }

  lemma CountWithinAttempts(w: World, e: Event, k: nat, busy: nat -> bool, lookup: Lookup, n: nat)
    requires k < |w.units| && n <= w.units[k].attempts && n <= MAX_ATTEMPTS
    ensures var m := CountAfter(w.units[k], e, k, w, busy, lookup, n);
            m <= NextWorld(w, e, busy, lookup).units[k].attempts && m <= MAX_ATTEMPTS
  {
    hide AssistClaims.Step, Heartbeat, IsStale;
    if !e.ToolEvent? && e.unit == k {
      match e
      case BeatEvent(unit, beat) => BeatCount(w.units[k], beat, busy(k), w.current, k, lookup, n);
      case CallEvent(unit, call) => CallKeeps(w.units[k], call, busy(k));
      case ConnectEvent(unit) =>
    }
  }

  /** Between resets of its counter a unit makes at most thirty restore attempts. */
  lemma {:induction false} AtMostThirtyAttempts(w: World, events: seq<Event>, k: nat, busy: nat -> bool,
                                                lookup: Lookup, n: nat)
    requires k < |w.units| && n <= w.units[k].attempts && n <= MAX_ATTEMPTS
    ensures NeverMoreThan(30, w, events, k, busy, lookup, n)
    decreases |events|
  {
    hide CountAfter, Heartbeat, AssistClaims.Step, Connect;
    if events != [] {
      CountWithinAttempts(w, events[0], k, busy, lookup, n);
      AtMostThirtyAttempts(NextWorld(w, events[0], busy, lookup), events[1..], k, busy, lookup,
                           CountAfter(w.units[k], events[0], k, w, busy, lookup, n));
    }
  }

  // ---- The two claims over whole runs ----

  predicate NoBoth(w: World) { forall k :: 0 <= k < |w.units| ==> !BothClaimed(w.units[k]) }

  predicate AllExclusive(w: World) { forall k :: 0 <= k < |w.units| ==> Exclusive(w.units[k]) }

  /** At no moment of the run has any unit both claims. */
  ghost predicate NeverBothClaimed(w: World, events: seq<Event>, busy: nat -> bool, lookup: Lookup)
    decreases |events|
  {
    NoBoth(w) && (events != [] ==> NeverBothClaimed(NextWorld(w, events[0], busy, lookup), events[1..], busy, lookup))
  }

  predicate TakenOverRollback(w: World, e: Event, busy: nat -> bool, lookup: Lookup) {
    e.BeatEvent? && e.unit < |w.units|
    && RestoresOverRollback(w.units[e.unit], e.beat, busy(e.unit), w.current, e.unit, lookup)
  }

  /** No heartbeat of the run sends a restore that is taken while its unit's rollback is claimed. */
  ghost predicate NeverTakenOverRollback(w: World, events: seq<Event>, busy: nat -> bool, lookup: Lookup)
    decreases |events|
  {
    events != [] ==>
      && !TakenOverRollback(w, events[0], busy, lookup)
      && NeverTakenOverRollback(NextWorld(w, events[0], busy, lookup), events[1..], busy, lookup)
  }

  lemma EventClaims(w: World, e: Event, busy: nat -> bool, lookup: Lookup)
    requires NoBoth(w)
    ensures NoBoth(NextWorld(w, e, busy, lookup)) <==> !TakenOverRollback(w, e, busy, lookup)
  {
    hide AssistClaims.Step, Heartbeat, BothClaimed, RestoresOverRollback, IsStale;
    if !e.ToolEvent? && e.unit < |w.units| {
      var s := w.units[e.unit];
      match e {
        case BeatEvent(unit, beat) => BeatClaims(s, beat, busy(unit), w.current, unit, lookup);
        case CallEvent(unit, call) => StepClaims(s, call, busy(unit));
        case ConnectEvent(unit) => ConnectClaims(s, w.current, unit, lookup);
      }
      assert NextWorld(w, e, busy, lookup).units[e.unit] in NextWorld(w, e, busy, lookup).units;
    }
  }

  lemma ConnectClaims(s: Assist, current: Option<int>, unit: nat, lookup: Lookup)
    requires !BothClaimed(s)
    ensures !BothClaimed(Connect(s, current, unit, lookup).0)
  {
    hide IsStale;
  }

  /** Over any run of beats, calls and connects the claims exclude each other, but for that one kind of heartbeat. */
  lemma {:induction false} RunNeverClaimsBoth(w: World, events: seq<Event>, busy: nat -> bool, lookup: Lookup)
    requires NoBoth(w)
    ensures NeverBothClaimed(w, events, busy, lookup) <==> NeverTakenOverRollback(w, events, busy, lookup)
    decreases |events|
  {
    hide NextWorld, NoBoth, TakenOverRollback;
    if events != [] {
      EventClaims(w, events[0], busy, lookup);
      var next := NextWorld(w, events[0], busy, lookup);
      if NoBoth(next) {
        RunNeverClaimsBoth(next, events[1..], busy, lookup);
      }
    }
  }

  /** The callers' discipline: no risky start and no risky connect, checked before the event on what is known then. */
  predicate Guarded(w: World, e: Event, lookup: Lookup) {
    e.ToolEvent? || e.unit >= |w.units|
    || match e
       case BeatEvent(_, _) => true
       case ConnectEvent(unit) => !RiskyConnect(w.units[unit], w.current, unit, lookup)
       case CallEvent(unit, call) => call.StartRollbackCall? ==> !RiskyStart(w.units[unit], call.slot)
  }

  ghost predicate GuardedRun(w: World, events: seq<Event>, busy: nat -> bool, lookup: Lookup)
    decreases |events|
  {
    events != [] ==>
      Guarded(w, events[0], lookup) && GuardedRun(NextWorld(w, events[0], busy, lookup), events[1..], busy, lookup)
  }

  lemma EventKeepsExclusive(w: World, e: Event, busy: nat -> bool, lookup: Lookup)
    requires AllExclusive(w) && Guarded(w, e, lookup)
    ensures AllExclusive(NextWorld(w, e, busy, lookup))
  {
    hide AssistClaims.Step, Heartbeat, Exclusive, RiskyStart, RiskyConnect, Connect;
    if !e.ToolEvent? && e.unit < |w.units| {
      var s := w.units[e.unit];
      match e
      case BeatEvent(unit, beat) => BeatKeepsExclusive(s, beat, busy(unit), w.current, unit, lookup);
      case CallEvent(unit, call) => CallKeepsExclusive(s, call, busy(unit));
      case ConnectEvent(unit) => ConnectKeepsExclusive(s, w.current, unit, lookup);
    }
  }

  /** Under the discipline no answer and no heartbeat ever sets both claims of a unit. */
  lemma {:induction false} GuardedRunsNeverClaimBoth(w: World, events: seq<Event>, busy: nat -> bool, lookup: Lookup)
    requires AllExclusive(w) && GuardedRun(w, events, busy, lookup)
    ensures NeverBothClaimed(w, events, busy, lookup)
    decreases |events|
  {
    hide NextWorld, Guarded;
    if events != [] {
      EventKeepsExclusive(w, events[0], busy, lookup);
      GuardedRunsNeverClaimBoth(NextWorld(w, events[0], busy, lookup), events[1..], busy, lookup);
    }
  }

  /** Two events that differ at most in what the device answers or reports and how long it keeps busy. */
  predicate SameChoice(a: Event, b: Event) {
    match (a, b)
    case (BeatEvent(u, _), BeatEvent(v, _)) => u == v
    case (CallEvent(u, StartRollbackCall(slot, _, _)), CallEvent(v, StartRollbackCall(other, _, _))) =>
      u == v && slot == other
    case (CallEvent(u, EnableCall(slot, _, _, _)), CallEvent(v, EnableCall(other, _, _, _))) =>
      u == v && slot == other
    case (CallEvent(u, MotionCall(_)), CallEvent(v, MotionCall(_))) => u == v
    case _ => a == b
  }

  /** Only heartbeats, and changes of the loaded tool, in which the driver takes no decision of its own. */
  predicate OnlyBeats(events: seq<Event>) {
    forall i :: 0 <= i < |events| ==> events[i].BeatEvent? || events[i].ToolEvent?
  }

  lemma {:induction false} BeatsAreGuarded(w: World, events: seq<Event>, busy: nat -> bool, lookup: Lookup)
    requires OnlyBeats(events)
    ensures GuardedRun(w, events, busy, lookup)
    decreases |events|
  {
    hide NextWorld;
    if events != [] {
      BeatsAreGuarded(NextWorld(w, events[0], busy, lookup), events[1..], busy, lookup);
    }
  }

  /** The rest of a run that brings an armed restore down on a claimed rollback. */
  function Ambush(s: Assist, unit: nat): seq<Event> { [ToolEvent(None), BeatEvent(unit, Worst(s))] }

  lemma AmbushStrikes(w: World, unit: nat, busy: nat -> bool, lookup: Lookup)
    requires unit < |w.units| && !Exclusive(w.units[unit])
    ensures !NeverBothClaimed(w, Ambush(w.units[unit], unit), busy, lookup)
  {
    var s := w.units[unit];
    hide Exclusive, Heartbeat, BothClaimed, Worst;
    WorstBeat(s, busy(unit), unit, lookup);
    var run := Ambush(s, unit);
    var w1 := NextWorld(w, run[0], busy, lookup);
    var w2 := NextWorld(w1, run[1], busy, lookup);
    assert w2.units[unit] == Heartbeat(s, Worst(s), busy(unit), None, unit, lookup).after;
    assert !NoBoth(w2);
    assert run[1..][0] == run[1];
    assert !NeverBothClaimed(w2, run[1..][1..], busy, lookup);
    assert !NeverBothClaimed(w1, run[1..], busy, lookup);
  }

  /**
   * The discipline is exact: an event is guarded if and only if, whatever is answered to it and whatever
   * heartbeats follow, no unit ever has both claims.
   */
  lemma GuardIsExact(w: World, e: Event, busy: nat -> bool, lookup: Lookup)
    requires AllExclusive(w)
    ensures Guarded(w, e, lookup) <==>
              forall other, rest :: SameChoice(e, other) && OnlyBeats(rest)
                ==> NeverBothClaimed(w, [other] + rest, busy, lookup)
  {
    hide NextWorld, NeverBothClaimed, AllExclusive, OnlyBeats;
    if Guarded(w, e, lookup) {
      forall other, rest | SameChoice(e, other) && OnlyBeats(rest)
        ensures NeverBothClaimed(w, [other] + rest, busy, lookup)
      {
        var run := [other] + rest;
        assert run[1..] == rest && Guarded(w, other, lookup);
        BeatsAreGuarded(NextWorld(w, other, busy, lookup), rest, busy, lookup);
        GuardedRunsNeverClaimBoth(w, run, busy, lookup);
      }
    } else {
      var other, rest := UnguardedCanFail(w, e, busy, lookup);
    }
  }

  lemma UnguardedCanFail(w: World, e: Event, busy: nat -> bool, lookup: Lookup) returns (other: Event, rest: seq<Event>)
    requires AllExclusive(w) && !Guarded(w, e, lookup)
    ensures SameChoice(e, other) && OnlyBeats(rest) && !NeverBothClaimed(w, [other] + rest, busy, lookup)
  {
    hide Exclusive, AssistClaims.Step, StartRollback, Connect, RiskyStart, RiskyConnect;
    var s, unit := w.units[e.unit], e.unit;
    other := e;
    if e.ConnectEvent? {
      ConnectKeepsExclusive(s, w.current, unit, lookup);
    } else {
      StartKeepsExclusive(s, e.call.slot, busy(unit));
      var waited, answers :| !Exclusive(StartRollback(s, e.call.slot, busy(unit), waited, answers));
      other := CallEvent(unit, StartRollbackCall(e.call.slot, waited, answers));
      StartIsStep(s, e.call.slot, waited, answers, busy(unit));
    }
    var next := NextWorld(w, other, busy, lookup);
    rest := Ambush(next.units[unit], unit);
    AmbushStrikes(next, unit, busy, lookup);
    assert ([other] + rest)[1..] == rest;
  }

  lemma StartIsStep(s: Assist, slot: int, waited: bool, answers: seq<Answer>, busy: bool)
    ensures AssistClaims.Step(s, StartRollbackCall(slot, waited, answers), busy)
            == StartRollback(s, slot, busy, waited, answers)
  {
  }

  // ---- A run that sets both claims ----

  /** A heartbeat that reports nothing but a ready device. */
  function ReadyBeat(toolchange: bool): Event {
    BeatEvent(0, Beat(true, {}, {}, false, toolchange, None, InTime, Taken))
  }

  /**
   * Slot 0 of the loaded tool is assisted; during a toolchange the device drops the assist and a rollback is started;
   * the restore queued in between goes out afterwards.
   */
  const FATAL_RUN: seq<Event> := [
    CallEvent(0, EnableCall(0, true, None, Taken)), ReadyBeat(true), ReadyBeat(true),
    CallEvent(0, StartRollbackCall(0, true, [Taken])), ReadyBeat(false)
  ]

  /** From a driver that just started, every answer a plain acceptance. */
  lemma BothClaimsAreReachable(busy: nat -> bool, lookup: Lookup)
    requires busy(0) && lookup(0) == Some((0, 0))
    ensures var w := World([UNCLAIMED], Some(0));
            AllExclusive(w) && !NeverBothClaimed(w, FATAL_RUN, busy, lookup)
  {
    var w := World([UNCLAIMED], Some(0));
    var s1 := UNCLAIMED.(feed := 0, persisted := 0);
    var seen := s1.(statusSeen := true, ready := true);
    var w1 := NextWorld(w, FATAL_RUN[0], busy, lookup);
    assert w1.units == [s1];
    var w2 := NextWorld(w1, FATAL_RUN[1], busy, lookup);
    assert w2.units == [seen.(lostStreak := 1)];
    var w3 := NextWorld(w2, FATAL_RUN[2], busy, lookup);
    assert w3.units == [seen.(pendingRestore := 0)];
    FirstAnswerAccepted();
    var w4 := NextWorld(w3, FATAL_RUN[3], busy, lookup);
    assert w4.units == [seen.(pendingRestore := 0, feed := -1, persisted := -1, rollback := 0)];
    var w5 := NextWorld(w4, FATAL_RUN[4], busy, lookup);
    assert BothClaimed(w5.units[0]);
  }
}
