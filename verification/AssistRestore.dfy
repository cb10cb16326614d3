/** Restoring feed assist after the device dropped it, across any number of units. */
module AssistRestore {
  import opened Wrappers
  import opened AssistClaims

  const MAX_ATTEMPTS: nat := 30
  const SLOT_COUNT: nat := 4

  /** Which unit and slot a tool number means; None when the mapping fails. */
  type Lookup = int -> Option<(nat, int)>

  /** What a heartbeat brings: the device's report, and the circumstances the driver meets while handling it. */
  datatype Beat = Beat(ready: bool, emptySlots: set<int>, assisting: set<int>, slotBecameReady: bool,
                       toolchange: bool, position: Option<int>, wait: Wait, answer: Answer)

  /** The short wait before a restore: over in time, timed out, or failed otherwise. */
  datatype Wait = InTime | TimedOut | Failed

  /** What handling a heartbeat did besides changing the state. */
  datatype Effect = Effect(reset: bool, attempted: bool, frame: Option<int>)

  /** A unit as its driver starts. */
  const UNCLAIMED: Assist := Assist(-1, -1, false, None, -1, -1, 0, 0, -1, false, false, {}, {})

  const NOTHING: Effect := Effect(false, false, None)

  predicate Owns(current: int, unit: nat, slot: int, lookup: Lookup) {
    current >= 0 && lookup(current) == Some((unit, slot))
  }

  /** current is the loaded tool's number, None when it cannot be read. */
  predicate IsStale(s: Assist, current: Option<int>, unit: nat, slot: int, lookup: Lookup) {
    current.Some? && !Owns(current.value, unit, slot, lookup) && slot != s.loading
  }

  // ---- Handling one heartbeat ----

  /** A restore bypasses the enable path and claims the slot when the device takes it. */
  function RestoreAnswer(s: Assist, slot: int, position: Option<int>, taken: bool): Assist {
    if taken then s.(feed := slot, topology := position, attempts := 0) else s
  }

  function ApplyStatus(s: Assist, beat: Beat, busy: bool): (r: (Assist, bool)) {
    var t := s.(statusSeen := true, ready := beat.ready, emptySlots := beat.emptySlots, assisting := beat.assisting);
    if beat.slotBecameReady && s.feed >= 0 && !busy && s.pendingRestore < 0 && !beat.toolchange
    then (t.(pendingRestore := s.feed, attempts := 0), true)
    else (t, false)
  }

  function Reconcile(s: Assist, busy: bool): (r: (Assist, bool)) {
    if s.feed < 0 then (s.(lostStreak := 0), false)
    else if s.pendingRestore >= 0 || !busy then (s, false)
    else if (s.statusSeen && s.feed in s.emptySlots) || !s.ready then (s.(lostStreak := 0), false)
    else if s.lostStreak + 1 < 2 then (s.(lostStreak := s.lostStreak + 1), false)
    else (s.(lostStreak := 0, pendingRestore := s.feed, attempts := 0), true)
  }

  function MaybeRestore(s: Assist, beat: Beat, current: Option<int>, unit: nat, lookup: Lookup): (r: (Assist, Effect)) {
    if s.pendingRestore < 0 || beat.toolchange then (s, NOTHING)
    else
      var slot := s.pendingRestore;
      var t := s.(pendingRestore := -1);
      if t.statusSeen && slot in t.emptySlots then (t, NOTHING)
      else if IsStale(t, current, unit, slot, lookup) then
        ((if t.feed == slot then t.(feed := -1, topology := None) else t).(persisted := -1), NOTHING)
      else
        var u := t.(attempts := t.attempts + 1);
        if u.attempts > MAX_ATTEMPTS then (u, NOTHING)
        else if u.topology.Some? && beat.position != u.topology then (u.(feed := -1, topology := None), NOTHING)
        else
          match beat.wait
          case TimedOut => (u.(pendingRestore := slot), Effect(false, true, None))
          case Failed => (u, Effect(false, true, None))
          case InTime =>
            var answered := RestoreAnswer(u, slot, beat.position, beat.answer == Taken);
            (answered, Effect(beat.answer == Taken, true, Some(slot)))
  }

  /** first: the counter was reset before any attempt of this heartbeat. */
  datatype Handled = Handled(after: Assist, first: bool, effect: Effect)

  function Heartbeat(s: Assist, beat: Beat, busy: bool, current: Option<int>, unit: nat, lookup: Lookup): Handled {
    var (t, queued) := ApplyStatus(s, beat, busy);
    var (u, lost) := Reconcile(t, busy);
    var (v, effect) := MaybeRestore(u, beat, current, unit, lookup);
    Handled(v, queued || lost, effect)
  }

  /** On a new connection the claim is queued for restore, unless it is stale. */
  function Connect(s: Assist, current: Option<int>, unit: nat, lookup: Lookup): (r: (Assist, bool)) {
    var slot := if s.feed >= 0 then s.feed else if 0 <= s.persisted < SLOT_COUNT then s.persisted else -1;
    if slot < 0 then (s, false)
    else if IsStale(s, current, unit, slot, lookup) then (s.(feed := -1, topology := None, persisted := -1), false)
    else (s.(pendingRestore := slot, attempts := 0), true)
  }

  // ---- The driver object ----

  class AceInstance {
    var s: Assist
    const unit: nat
    const busy: bool

    constructor (unit: nat, busy: bool)
      ensures this.unit == unit && this.busy == busy
      ensures s == UNCLAIMED
    {
      this.unit, this.busy := unit, busy;
      s := UNCLAIMED;
    }

    method ClearAssistClaimsForSlot(slot: int)
      modifies this
      ensures s == Clear(old(s), slot)
    {
      if slot < 0 {
        return;
      }
      if s.feed == slot {
        s := s.(feed := -1, topology := None, ackPending := false, persisted := -1);
      }
      if s.rollback == slot {
        s := s.(rollback := -1);
      }
    }

    method StopRollbackAssist(slot: int)
      modifies this
      ensures s == StopRollback(old(s), slot)
    {
      if slot < 0 {
        return;
      }
      if s.rollback >= 0 && s.rollback != slot {
        return;
      }
      ClearAssistClaimsForSlot(slot);
    }

    method DisableFeedAssist(slot: int)
      modifies this
      ensures s == Disable(old(s), slot)
    {
      if slot < 0 || s.feed != slot {
        return;
      }
      ClearAssistClaimsForSlot(slot);
    }

    method EnableFeedAssist(slot: int, waited: bool, position: Option<int>, answer: Answer)
      modifies this
      ensures s == Enable(old(s), slot, busy, waited, position, answer)
    {
      if s.rollback >= 0 {
        StopRollbackAssist(s.rollback);
      }
      var already := s.feed == slot;
      if already && slot in s.assisting {
        return;
      }
      s := s.(feed := slot, topology := position);
      if !(already && busy) && !waited {
        return;
      }
      s := s.(ackPending := true);
      HandleEnableAnswer(slot, answer);
    }

    /** The callback of an enable request. */
    method HandleEnableAnswer(slot: int, answer: Answer)
      modifies this
      ensures s == EnableAnswered(old(s), slot, answer)
    {
      if answer == Taken {
        s := s.(ackPending := false, persisted := slot);
      } else if answer == Refused {
        s := s.(ackPending := false);
        if slot in s.assisting {
          s := s.(feed := slot, persisted := slot);
          return;
        }
        s := s.(feed := -1, topology := None, persisted := -1);
      }
    }

    /** False when the stop of a feed assist timed out. */
    method EnsureAssistsOffForMotion(keep: int, waited: bool) returns (returned: bool)
      modifies this
      ensures (s, returned) == EnsureOff(old(s), keep, busy, waited)
    {
      var active := s.feed;
      if active >= 0 {
        DisableFeedAssist(active);
        if !busy && !waited {
          return false;
        }
      }
      var rollback := s.rollback;
      if rollback >= 0 && rollback != keep {
        StopRollbackAssist(rollback);
      }
      returned := true;
    }

    /** Ask until the device accepts; answers holds what it says to each attempt. */
    method StartRollbackAssistVerified(slot: int, waited: bool, answers: seq<Answer>) returns (started: bool)
      modifies this
      ensures s == StartRollback(old(s), slot, busy, waited, answers)
      ensures started ==> s.rollback == slot
    {
      var returned := EnsureAssistsOffForMotion(slot, waited);
      if !returned || slot in s.emptySlots {
        return false;
      }
      var attempt := 0;
      while attempt < START_ATTEMPTS && attempt < |answers|
        invariant attempt <= START_ATTEMPTS
        invariant forall i :: 0 <= i < attempt && i < |answers| ==> answers[i] != Taken
        invariant s == EnsureOff(old(s), slot, busy, waited).0
      {
        if answers[attempt] == Taken {
          s := s.(rollback := slot);
          return true;
        }
        attempt := attempt + 1;
      }
      started := false;
    }

    method OnHeartbeatResponse(beat: Beat, current: Option<int>, lookup: Lookup) returns (frame: Option<int>)
      modifies this
      ensures var h := Heartbeat(old(s), beat, busy, current, unit, lookup); s == h.after && frame == h.effect.frame
    {
      StatusUpdateCallback(beat);
      ReconcileFeedAssistState();
      frame := MaybeRestorePendingFeedAssist(beat, current, lookup);
    }

    method StatusUpdateCallback(beat: Beat)
      modifies this
      ensures s == ApplyStatus(old(s), beat, busy).0
    {
      var wasActive := s.feed;
      s := s.(statusSeen := true, ready := beat.ready, emptySlots := beat.emptySlots, assisting := beat.assisting);
      if beat.slotBecameReady && wasActive >= 0 {
        if !busy && s.pendingRestore < 0 {
          if !beat.toolchange {
            s := s.(pendingRestore := wasActive, attempts := 0);
          }
        }
      }
    }

    method ReconcileFeedAssistState()
      modifies this
      ensures s == Reconcile(old(s), busy).0
    {
      if s.feed < 0 {
        s := s.(lostStreak := 0);
        return;
      }
      if s.pendingRestore >= 0 {
        return;
      }
      if !busy {
        return;
      }
      if s.statusSeen && s.feed in s.emptySlots {
        s := s.(lostStreak := 0);
        return;
      }
      if !s.ready {
        s := s.(lostStreak := 0);
        return;
      }
      s := s.(lostStreak := s.lostStreak + 1);
      if s.lostStreak < 2 {
        return;
      }
      s := s.(lostStreak := 0);
      s := s.(pendingRestore := s.feed, attempts := 0);
    }

    method MaybeRestorePendingFeedAssist(beat: Beat, current: Option<int>, lookup: Lookup) returns (frame: Option<int>)
      modifies this
      ensures var (t, effect) := MaybeRestore(old(s), beat, current, unit, lookup); s == t && frame == effect.frame
    {
      frame := None;
      if s.pendingRestore < 0 {
        return;
      }
      if beat.toolchange {
        return;
      }
      var slot := s.pendingRestore;
      s := s.(pendingRestore := -1);
      if s.statusSeen && slot in s.emptySlots {
        return;
      }
      if IsStale(s, current, unit, slot, lookup) {
        if s.feed == slot {
          s := s.(feed := -1, topology := None);
        }
        s := s.(persisted := -1);
        return;
      }
      s := s.(attempts := s.attempts + 1);
      if s.attempts > MAX_ATTEMPTS {
        return;
      }
      if s.topology.Some? && beat.position != s.topology {
        s := s.(feed := -1, topology := None);
        return;
      }
      match beat.wait {
        case TimedOut =>
          s := s.(pendingRestore := slot);
        case Failed =>
        case InTime =>
          frame := Some(slot);
          if beat.answer == Taken {
            s := s.(feed := slot, topology := beat.position, attempts := 0);
          }
      }
    }

    method OnAceConnect(current: Option<int>, lookup: Lookup)
      modifies this
      ensures s == Connect(old(s), current, unit, lookup).0
    {
      var slot := s.feed;
      if slot < 0 {
        slot := s.persisted;
        if !(0 <= slot < SLOT_COUNT) {
          slot := -1;
        }
      }
      if slot >= 0 {
        if IsStale(s, current, unit, slot, lookup) {
          s := s.(feed := -1, topology := None, persisted := -1);
          slot := -1;
        }
      }
      if slot >= 0 {
        s := s.(pendingRestore := slot, attempts := 0);
      }
    }
  }

  // ---- What one heartbeat does to the claims ----

  /** A queued restore that the next heartbeat may still try. */
  predicate Armed(s: Assist) { s.pendingRestore >= 0 && s.attempts < MAX_ATTEMPTS }

  /** At most one claim, and no restore waits to join a rollback. */
  predicate Exclusive(s: Assist) { !BothClaimed(s) && !(s.rollback >= 0 && Armed(s)) }

  /** A heartbeat that sends a restore and has it taken while a rollback is claimed. */
  predicate RestoresOverRollback(s: Assist, beat: Beat, busy: bool, current: Option<int>, unit: nat, lookup: Lookup) {
    var frame := Heartbeat(s, beat, busy, current, unit, lookup).effect.frame;
    frame.Some? && frame.value >= 0 && beat.answer == Taken && s.rollback >= 0
  }

  lemma BeatClaims(s: Assist, beat: Beat, busy: bool, current: Option<int>, unit: nat, lookup: Lookup)
    requires !BothClaimed(s)
    ensures BothClaimed(Heartbeat(s, beat, busy, current, unit, lookup).after)
            <==> RestoresOverRollback(s, beat, busy, current, unit, lookup)
    ensures Heartbeat(s, beat, busy, current, unit, lookup).after.rollback == s.rollback
  {
    hide IsStale;
  }

  lemma BeatKeepsExclusive(s: Assist, beat: Beat, busy: bool, current: Option<int>, unit: nat, lookup: Lookup)
    requires Exclusive(s)
    ensures Exclusive(Heartbeat(s, beat, busy, current, unit, lookup).after)
  {
    hide IsStale;
  }

  /** The heartbeat that does most harm: nothing defers, refuses or outdates the restore. */
  function Worst(s: Assist): Beat { Beat(true, {}, {}, false, BothClaimed(s), s.topology, InTime, Taken) }

  lemma WorstBeat(s: Assist, busy: bool, unit: nat, lookup: Lookup)
    ensures Exclusive(s) <==> !BothClaimed(Heartbeat(s, Worst(s), busy, None, unit, lookup).after)
  {
    if Exclusive(s) {
      BeatKeepsExclusive(s, Worst(s), busy, None, unit, lookup);
    }
  }

  // ---- What a caller can check ----

  /** Starting a rollback on a slot not reported empty while a restore is armed. */
  predicate RiskyStart(s: Assist, slot: int) { slot >= 0 && slot !in s.emptySlots && Armed(s) }

  /** Connecting under a rollback claim while a saved claim is there to restore. */
  predicate RiskyConnect(s: Assist, current: Option<int>, unit: nat, lookup: Lookup) {
    s.rollback >= 0 && 0 <= s.persisted < SLOT_COUNT && !IsStale(s, current, unit, s.persisted, lookup)
  }

  /** A start is safe whatever the device answers exactly when it is not risky. */
  lemma StartKeepsExclusive(s: Assist, slot: int, busy: bool)
    requires Exclusive(s)
    ensures !RiskyStart(s, slot) <==> forall waited, answers :: Exclusive(StartRollback(s, slot, busy, waited, answers))
  {
    hide AcceptedAt;
    if RiskyStart(s, slot) {
      FirstAnswerAccepted();
      assert !Exclusive(StartRollback(s, slot, busy, true, [Taken]));
    }
  }

  lemma FirstAnswerAccepted()
    ensures AcceptedAt([Taken], START_ATTEMPTS)
  {
    assert [Taken][0] == Taken;
  }

  lemma ConnectKeepsExclusive(s: Assist, current: Option<int>, unit: nat, lookup: Lookup)
    requires Exclusive(s)
    ensures !RiskyConnect(s, current, unit, lookup) <==> Exclusive(Connect(s, current, unit, lookup).0)
  {
  }

  lemma CallKeepsExclusive(s: Assist, call: Call, busy: bool)
    requires Exclusive(s) && (call.StartRollbackCall? ==> !RiskyStart(s, call.slot))
    ensures Exclusive(AssistClaims.Step(s, call, busy))
  {
    hide AcceptedAt;
    if call.StartRollbackCall? {
      StartKeepsExclusive(s, call.slot, busy);
    }
  }
}
