/** Which slot the driver believes is being assisted, forward (feed) or backward (rollback). */
module AssistClaims {
  import opened Wrappers

  /** One ACE unit as its driver sees it. A claim of -1 means none. */
  datatype Assist = Assist(
    feed: int,                  // slot claimed for feed assist
    rollback: int,              // slot claimed for rollback assist
    ackPending: bool,           // a feed enable is out and unanswered
    topology: Option<int>,      // chain position when feed assist was enabled
    persisted: int,             // saved copy of the feed claim
    pendingRestore: int,        // slot queued for restore
    attempts: int,              // restore attempts since the counter was reset
    lostStreak: int,            // heartbeats contradicting the feed claim
    loading: int,               // slot with a load in flight
    statusSeen: bool,           // a real device status has arrived
    ready: bool,                // last reported work status
    emptySlots: set<int>,       // slots last reported empty
    assisting: set<int>)        // slots last reported assisting or shifting

  /** What comes back for a request: an answer, or none before the next call. */
  datatype Answer = Taken | Refused | Silent

  const START_ATTEMPTS: nat := 12

  // ---- The operations ----

  function Clear(s: Assist, slot: int): Assist {
    if slot < 0 then s
    else
      var t := if s.feed == slot then s.(feed := -1, topology := None, ackPending := false, persisted := -1) else s;
      if t.rollback == slot then t.(rollback := -1) else t
  }

  function StopRollback(s: Assist, slot: int): Assist {
    if s.rollback >= 0 && s.rollback != slot then s else Clear(s, slot)
  }

  function Disable(s: Assist, slot: int): Assist {
    if slot < 0 || s.feed != slot then s else Clear(s, slot)
  }

  function EnableAnswered(s: Assist, slot: int, answer: Answer): Assist {
    match answer
    case Taken => s.(ackPending := false, persisted := slot)
    case Silent => s
    case Refused =>
      if slot in s.assisting then s.(ackPending := false, feed := slot, persisted := slot)
      else s.(ackPending := false, feed := -1, topology := None, persisted := -1)
  }

  /** busy: the unit stays busy while assisting; waited: the wait for readiness ended in time. */
  function Enable(s: Assist, slot: int, busy: bool, waited: bool, position: Option<int>, answer: Answer): Assist {
    var t := if s.rollback >= 0 then StopRollback(s, s.rollback) else s;
    var already := t.feed == slot;
    if already && slot in t.assisting then t
    else
      var u := t.(feed := slot, topology := position);
      if !(already && busy) && !waited then u else EnableAnswered(u.(ackPending := true), slot, answer)
  }

  /** waited false: the stop of a feed assist timed out and the guard raised instead of returning. */
  function EnsureOff(s: Assist, keep: int, busy: bool, waited: bool): (r: (Assist, bool))
    ensures r.1 && keep < 0 ==> r.0.feed < 0 && r.0.rollback < 0
    ensures r.1 ==> r.0.feed < 0 && (r.0.rollback < 0 || r.0.rollback == keep)
  {
    var t := if s.feed >= 0 then Disable(s, s.feed) else s;
    if s.feed >= 0 && !busy && !waited then (t, false)
    else if t.rollback >= 0 && t.rollback != keep then (StopRollback(t, t.rollback), true)
    else (t, true)
  }

  /** The first of the answers that is an acceptance, within the attempts allowed. */
  predicate AcceptedAt(answers: seq<Answer>, tries: nat) {
    exists i :: 0 <= i < |answers| && i < tries && answers[i] == Taken
  }

  function StartRollback(s: Assist, slot: int, busy: bool, waited: bool, answers: seq<Answer>): Assist {
    var (t, returned) := EnsureOff(s, slot, busy, waited);
    if returned && slot !in t.emptySlots && AcceptedAt(answers, START_ATTEMPTS) then t.(rollback := slot) else t
  }

  // ---- Runs ----

  datatype Call =
    | EnableCall(slot: int, waited: bool, position: Option<int>, answer: Answer)
    | DisableCall(slot: int)
    | StartRollbackCall(slot: int, waited: bool, answers: seq<Answer>)
    | StopRollbackCall(slot: int)
    | MotionCall(waited: bool)

  function Step(s: Assist, call: Call, busy: bool): Assist {
    match call
    case EnableCall(slot, waited, position, answer) => Enable(s, slot, busy, waited, position, answer)
    case DisableCall(slot) => Disable(s, slot)
    case StartRollbackCall(slot, waited, answers) => StartRollback(s, slot, busy, waited, answers)
    case StopRollbackCall(slot) => StopRollback(s, slot)
    case MotionCall(waited) => EnsureOff(s, -1, busy, waited).0
  }

  predicate BothClaimed(s: Assist) { s.feed >= 0 && s.rollback >= 0 }

  /** No call of its own sets both claims, whatever is answered. */
  lemma StepClaims(s: Assist, call: Call, busy: bool)
    requires !BothClaimed(s)
    ensures !BothClaimed(Step(s, call, busy))
  {
  }

  ghost predicate NeverBoth(s: Assist, calls: seq<Call>, busy: bool)
    decreases |calls|
  {
    !BothClaimed(s) && (calls != [] ==> NeverBoth(Step(s, calls[0], busy), calls[1..], busy))
  }

  /** Over a whole run of calls, with no restore between them, the two claims exclude each other. */
  lemma {:induction false} WithoutRestoresNeverBoth(s: Assist, calls: seq<Call>, busy: bool)
    requires !BothClaimed(s)
    ensures NeverBoth(s, calls, busy)
    decreases |calls|
  {
    hide Step, BothClaimed;
    if calls != [] {
      StepClaims(s, calls[0], busy);
      WithoutRestoresNeverBoth(Step(s, calls[0], busy), calls[1..], busy);
    }
  }

  /** A new rollback claim comes from an accepted start on that very slot, and leaves no feed claim. */
  lemma RollbackClaimIsAccepted(s: Assist, call: Call, busy: bool)
    ensures var t := Step(s, call, busy);
            t.rollback >= 0 && t.rollback != s.rollback ==>
              && call.StartRollbackCall? && call.slot == t.rollback && t.feed < 0
              && call.slot !in s.emptySlots && AcceptedAt(call.answers, START_ATTEMPTS)
  {
    hide AcceptedAt;
    match call
    case EnableCall(slot, waited, position, answer) =>
    case StartRollbackCall(slot, waited, answers) => GuardKeepsRollback(s, slot, busy, waited);
    case _ =>
  }

  /** The motion guard sets no claim. */
  lemma GuardKeepsRollback(s: Assist, keep: int, busy: bool, waited: bool)
    ensures var t := EnsureOff(s, keep, busy, waited).0;
            (t.rollback >= 0 ==> t.rollback == s.rollback) && (t.feed >= 0 ==> t.feed == s.feed)
            && t.emptySlots == s.emptySlots
  {
  }

  /** A refused enable leaves a feed claim only on a slot the device itself shows assisting. */
  lemma RefusedEnableDropsClaim(s: Assist, slot: int, busy: bool, position: Option<int>)
    requires slot >= 0
    ensures var t := Enable(s, slot, busy, true, position, Refused);
            && (t.feed == slot <==> slot in s.assisting)
            && (slot !in s.assisting ==> t.feed == -1 == t.persisted)
            && (slot in s.assisting && s.feed != slot ==> t.persisted == slot && !t.ackPending)
  {
  }

  /** When the motion guard returns with nothing to keep, no claim at all is left. */
  lemma MotionGuardClearsAll(s: Assist, busy: bool, waited: bool)
    requires s.feed >= -1 && s.rollback >= -1
    ensures var (t, returned) := EnsureOff(s, -1, busy, waited); returned ==> t.feed == -1 && t.rollback == -1
  {
  }
}
