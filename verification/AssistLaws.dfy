/** What the assist calls and heartbeats do, said of the fields, and that a lost assist does come back. */
module AssistLaws {
  import opened Wrappers
  import opened AssistClaims
  import opened AssistRestore
  import opened AssistRuns

  // ---- Calls ----

  /** One stop frame ends both assists of a slot: every claim on it goes, and no other. */
  lemma ClearDropsTheSlot(s: Assist, slot: int)
    ensures slot < 0 ==> Clear(s, slot) == s
    ensures slot >= 0 ==>
              var t := Clear(s, slot);
              && t.rollback == (if s.rollback == slot then -1 else s.rollback)
              && (if s.feed == slot
                  then t.feed == -1 == t.persisted && t.topology.None? && !t.ackPending
                  else t.feed == s.feed && t.persisted == s.persisted && t.topology == s.topology
                       && t.ackPending == s.ackPending)
  {
  }

  lemma DisableEndsItsSlot(s: Assist, slot: int)
    ensures slot >= 0 && s.feed == slot ==>
              Disable(s, slot).feed == -1 == Disable(s, slot).persisted && Disable(s, slot).rollback != slot
    ensures slot < 0 || s.feed != slot ==> Disable(s, slot) == s
  {
  }

  /** A stop reaches the slot unless the rollback is known to be another slot's. */
  lemma StopEndsItsSlot(s: Assist, slot: int)
    requires slot >= 0
    ensures s.rollback >= 0 && s.rollback != slot ==> StopRollback(s, slot) == s
    ensures s.rollback < 0 || s.rollback == slot ==>
              StopRollback(s, slot).rollback < 0 && StopRollback(s, slot).feed != slot
              && (s.feed != slot ==> StopRollback(s, slot).feed == s.feed)
  {
  }

  /** An enable ends the rollback and claims the slot; an acceptance saves the claim, silence leaves it unconfirmed. */
  lemma EnableClaims(s: Assist, slot: int, busy: bool, waited: bool, position: Option<int>, answer: Answer)
    requires slot >= 0 && !BothClaimed(s) && answer != Refused
    ensures var t := Enable(s, slot, busy, waited, position, answer);
            && t.feed == slot && t.rollback < 0
            && (s.feed == slot && slot in s.assisting ==> t == s)
            && (!(s.feed == slot && slot in s.assisting) ==>
                  && t.topology == position
                  && (waited && answer == Taken ==> t.persisted == slot && !t.ackPending)
                  && (waited && answer == Silent ==> t.ackPending && (s.rollback < 0 ==> t.persisted == s.persisted)))
  {
  }

  /** The motion guard stops at a feed assist that cannot be waited for, and spares the rollback it is told to keep. */
  lemma GuardExactly(s: Assist, keep: int, busy: bool, waited: bool)
    ensures var (t, returned) := EnsureOff(s, keep, busy, waited);
            && (returned <==> s.feed < 0 || busy || waited)
            && (s.feed >= 0 ==> t.feed == -1 == t.persisted)
            && (s.feed < 0 ==> t.feed == s.feed && t.persisted == s.persisted)
            && (returned && s.rollback >= 0 ==> (t.rollback == s.rollback <==> s.rollback == keep != s.feed))
  {
  }

  /** A rollback is claimed exactly when the guard returned, the slot has filament and one of twelve tries is taken. */
  lemma StartExactly(s: Assist, slot: int, busy: bool, waited: bool, answers: seq<Answer>)
    requires slot >= 0 && s.rollback != slot
    ensures StartRollback(s, slot, busy, waited, answers).rollback == slot
            <==> (s.feed < 0 || busy || waited) && slot !in s.emptySlots
                 && exists i :: 0 <= i < |answers| && i < 12 && answers[i] == Taken
  {
    GuardKeepsRollback(s, slot, busy, waited);
  }

  // ---- One heartbeat ----

  /** Nothing stands against restoring the queued slot now, the wait aside. */
  predicate Restorable(s: Assist, beat: Beat, current: Option<int>, unit: nat, lookup: Lookup) {
    && s.pendingRestore >= 0 && !beat.toolchange
    && !(s.statusSeen && s.pendingRestore in s.emptySlots)
    && (current.Some? ==>
          s.pendingRestore == s.loading
          || (current.value >= 0 && lookup(current.value) == Some((unit, s.pendingRestore))))
    && s.attempts < 30
    && (s.topology.Some? ==> beat.position == s.topology)
  }

  /** A frame is sent exactly then, if the wait ends in time; and it is for the queued slot. */
  lemma RestoreExactly(s: Assist, beat: Beat, current: Option<int>, unit: nat, lookup: Lookup)
    ensures var (t, effect) := MaybeRestore(s, beat, current, unit, lookup);
            var sends := Restorable(s, beat, current, unit, lookup) && beat.wait == InTime;
            && (effect.frame == if sends then Some(s.pendingRestore) else None)
            && (sends && beat.answer == Taken ==>
                  t.feed == s.pendingRestore && t.topology == beat.position && t.attempts == 0)
            && (sends && beat.answer != Taken ==> t.feed == s.feed && t.attempts == s.attempts + 1)
  {
  }

  /** A restore stays queued exactly through a toolchange and when its wait times out. */
  lemma StaysQueuedExactly(s: Assist, beat: Beat, current: Option<int>, unit: nat, lookup: Lookup)
    requires s.pendingRestore >= 0
    ensures var t := MaybeRestore(s, beat, current, unit, lookup).0;
            t.pendingRestore == if beat.toolchange
                                   || (Restorable(s, beat, current, unit, lookup) && beat.wait == TimedOut)
                                then s.pendingRestore else -1
  {
  }

  /** A claim that is not the loaded tool's, or was made at another chain position, is dropped with its restore. */
  lemma OutdatedClaimIsDropped(s: Assist, beat: Beat, current: Option<int>, unit: nat, lookup: Lookup)
    requires s.pendingRestore >= 0 && !beat.toolchange && !(s.statusSeen && s.pendingRestore in s.emptySlots)
    ensures var t := MaybeRestore(s, beat, current, unit, lookup).0;
            if IsStale(s, current, unit, s.pendingRestore, lookup)
            then t.persisted == -1 && t.feed == if s.feed == s.pendingRestore then -1 else s.feed
            else s.attempts < 30 && s.topology.Some? && beat.position != s.topology ==> t.feed == -1 && t.topology.None?
  {
  }

  /** A freshly loaded slot queues the claim of a unit that shows no loss by itself. */
  lemma SlotReadyQueues(s: Assist, beat: Beat, busy: bool)
    ensures var (t, queued) := ApplyStatus(s, beat, busy);
            && (queued <==> beat.slotBecameReady && s.feed >= 0 && !busy && s.pendingRestore < 0 && !beat.toolchange)
            && (queued ==> t.pendingRestore == s.feed && t.attempts == 0)
            && (!queued ==> t.pendingRestore == s.pendingRestore && t.attempts == s.attempts)
            && t.statusSeen && t.ready == beat.ready && t.emptySlots == beat.emptySlots && t.assisting == beat.assisting
            && t.feed == s.feed && t.rollback == s.rollback && t.persisted == s.persisted
  {
  }

  /** A heartbeat that contradicts the claim: the unit is ready although it should be busy assisting. */
  predicate Contradicts(s: Assist, beat: Beat) { beat.ready && s.feed !in beat.emptySlots }

  function After(s: Assist, beat: Beat, busy: bool, current: Option<int>, unit: nat, lookup: Lookup): Assist {
    Heartbeat(s, beat, busy, current, unit, lookup).after
  }

  /** On a unit that stays busy while assisting, the second contradiction in a row queues the claim, not the first. */
  lemma LossIsNoticed(s: Assist, a: Beat, b: Beat, current: Option<int>, unit: nat, lookup: Lookup)
    requires s.feed >= 0 && s.pendingRestore < 0 && s.lostStreak == 0 && b.toolchange
    ensures var t := After(s, a, true, current, unit, lookup);
            var u := After(t, b, true, current, unit, lookup);
            && t.pendingRestore < 0 && t.feed == s.feed && (t.lostStreak == if Contradicts(s, a) then 1 else 0)
            && u.pendingRestore == (if Contradicts(s, a) && Contradicts(s, b) then s.feed else s.pendingRestore)
            && (u.pendingRestore >= 0 ==> u.attempts == 0)
  {
  }

  /** A connect queues the claim held, or else the one saved for a real slot, unless it is not the loaded tool's. */
  lemma ConnectExactly(s: Assist, current: Option<int>, unit: nat, lookup: Lookup)
    ensures var (t, queued) := Connect(s, current, unit, lookup);
            var slot := if s.feed >= 0 then s.feed else s.persisted;
            && (queued <==> slot >= 0 && (s.feed < 0 ==> slot < 4) && !IsStale(s, current, unit, slot, lookup))
            && (queued ==> t == s.(pendingRestore := slot, attempts := 0))
            && (!queued && slot >= 0 && (s.feed < 0 ==> slot < 4) ==> t.feed == -1 == t.persisted)
            && (slot < 0 || (s.feed < 0 && slot >= 4) ==> t == s)
  {
  }

  // ---- A lost assist comes back ----

  predicate ForUnit(e: Event, k: nat) { !e.ToolEvent? && e.unit == k }

  /** A heartbeat of the unit in which nothing stands against restoring the slot but a wait that times out. */
  predicate Deferring(e: Event, slot: int, topology: Option<int>) {
    e.BeatEvent? && Unopposed(e.beat, slot, topology) && e.beat.wait == TimedOut
  }

  predicate Unopposed(beat: Beat, slot: int, topology: Option<int>) {
    !beat.toolchange && slot !in beat.emptySlots && (topology.Some? ==> beat.position == topology)
  }

  /** The loaded tool stays, and the unit has nothing but such heartbeats; other units may do anything. */
  predicate OnlyDefers(events: seq<Event>, k: nat, slot: int, topology: Option<int>) {
    forall i :: 0 <= i < |events| ==>
      !events[i].ToolEvent? && (ForUnit(events[i], k) ==> Deferring(events[i], slot, topology))
  }

  function CountFor(events: seq<Event>, k: nat): nat {
    if events == [] then 0 else (if ForUnit(events[0], k) then 1 else 0) + CountFor(events[1..], k)
  }

  predicate Owned(w: World, k: nat, slot: int, lookup: Lookup) {
    w.current.Some? ==> w.current.value >= 0 && lookup(w.current.value) == Some((k, slot))
  }

  lemma DeferredBeat(s: Assist, beat: Beat, busy: bool, current: Option<int>, k: nat, lookup: Lookup)
    requires s.pendingRestore >= 0 && s.attempts < 30 && Unopposed(beat, s.pendingRestore, s.topology)
    requires current.Some? ==> current.value >= 0 && lookup(current.value) == Some((k, s.pendingRestore))
    ensures var h := Heartbeat(s, beat, busy, current, k, lookup);
            && (beat.wait == TimedOut ==>
                  h.after.pendingRestore == s.pendingRestore && h.after.topology == s.topology
                  && h.after.attempts == s.attempts + 1 && h.effect.frame.None?)
            && (beat.wait == InTime ==> h.effect.frame == Some(s.pendingRestore))
            && (beat.wait == InTime && beat.answer == Taken ==> h.after.feed == s.pendingRestore)
  {
  }

  /**
   * A queued restore outlasts busy heartbeats: while fewer than thirty attempts are made and nothing but time-outs
   * stands against it, whatever the other units do, the next heartbeat in time sends the frame for that very slot.
   */
  lemma {:induction false} RestoreIsRetried(w: World, events: seq<Event>, k: nat, beat: Beat, busy: nat -> bool,
                                            lookup: Lookup)
    requires k < |w.units| && w.units[k].pendingRestore >= 0
    requires var s := w.units[k];
             && Owned(w, k, s.pendingRestore, lookup)
             && OnlyDefers(events, k, s.pendingRestore, s.topology)
             && s.attempts + CountFor(events, k) < 30
             && Unopposed(beat, s.pendingRestore, s.topology) && beat.wait == InTime
    ensures var t := AfterRun(w, events, busy, lookup);
            && |t.units| == |w.units| && t.current == w.current
            && SentBy(t, BeatEvent(k, beat), busy, lookup) == Some(Sent(w.current, k, w.units[k].pendingRestore, false))
            && (beat.answer == Taken ==>
                  NextWorld(t, BeatEvent(k, beat), busy, lookup).units[k].feed == w.units[k].pendingRestore)
    decreases |events|
  {
    hide Heartbeat, AssistClaims.Step, Connect, Unopposed;
    var s := w.units[k];
    if events == [] {
      DeferredBeat(s, beat, busy(k), w.current, k, lookup);
      ClearMeansFilament(beat, s.pendingRestore, s.topology);
    } else {
      var e := events[0];
      if ForUnit(e, k) {
        assert Deferring(e, s.pendingRestore, s.topology);
        DeferredBeat(s, e.beat, busy(k), w.current, k, lookup);
      }
      RestoreIsRetried(NextWorld(w, e, busy, lookup), events[1..], k, beat, busy, lookup);
    }
  }

  lemma ClearMeansFilament(beat: Beat, slot: int, topology: Option<int>)
    requires Unopposed(beat, slot, topology)
    ensures slot !in beat.emptySlots
  {
  }

  /** The world after a run. */
  function AfterRun(w: World, events: seq<Event>, busy: nat -> bool, lookup: Lookup): (t: World)
    ensures |t.units| == |w.units|
    decreases |events|
  {
    if events == [] then w else AfterRun(NextWorld(w, events[0], busy, lookup), events[1..], busy, lookup)
  }

  // ---- Restarts ----

  /** A restarted driver knows only what was saved. */
  function Restarted(s: Assist): Assist { UNCLAIMED.(persisted := s.persisted) }

  /** An enable that was taken is queued for restore by the first connect after a restart, while its tool is loaded. */
  lemma EnableSurvivesRestart(s: Assist, slot: int, busy: bool, position: Option<int>, at: int, unit: nat,
                              lookup: Lookup)
    requires 0 <= slot < 4 && !BothClaimed(s) && !(s.feed == slot && slot in s.assisting)
    requires at >= 0 && lookup(at) == Some((unit, slot))
    ensures var t := Enable(s, slot, busy, true, position, Taken);
            Connect(Restarted(t), Some(at), unit, lookup) == (Restarted(t).(pendingRestore := slot), true)
  {
    EnableClaims(s, slot, busy, true, position, Taken);
    hide Enable;
  }

  /** A disabled assist does not come back. */
  lemma DisableSurvivesRestart(s: Assist, current: Option<int>, unit: nat, lookup: Lookup)
    requires s.feed >= 0
    ensures !Connect(Restarted(Disable(s, s.feed)), current, unit, lookup).1
  {
  }
}
