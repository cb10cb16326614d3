/** Feeding towards a sensor in increments that the device may refuse. */
module IncrementalFeed {

  /** The device refuses while an earlier feed runs; anything else, an error included, counts as fed. */
  datatype Answer = Forbidden | Counted

  const FORBIDDEN_MAX: nat := 5

  /** How many increments cover a remaining length. */
  function Increments(remaining: int, increment: int): (n: nat)
    requires increment > 0
    decreases remaining
  {
    if remaining <= 0 then 0 else 1 + Increments(remaining - increment, increment)
  }

  /** It is the remaining length over the increment, rounded up. */
  lemma {:induction false} IncrementsRoundUp(remaining: int, increment: int)
    requires increment > 0
    ensures var n := Increments(remaining, increment);
            (remaining <= 0 ==> n == 0) && (remaining > 0 ==> (n - 1) * increment < remaining <= n * increment)
    decreases remaining
  {
    if remaining > 0 {
      IncrementsRoundUp(remaining - increment, increment);
      var n := Increments(remaining, increment);
      assert n * increment == (n - 1) * increment + increment;
      assert n > 1 ==> (n - 1) * increment == (n - 2) * increment + increment;
    }
  }

  /** The length the answers account for: an increment for each that is no refusal. */
  function Fed(answers: seq<Answer>, increment: int): int {
    if answers == [] then 0
    else Fed(answers[..|answers| - 1], increment) + if answers[|answers| - 1].Counted? then increment else 0
  }

  /** How many refusals in a row the answers end with. */
  function Streak(answers: seq<Answer>): nat {
    if answers == [] || answers[|answers| - 1].Counted? then 0 else 1 + Streak(answers[..|answers| - 1])
  }

  datatype Outcome = Reached | NotTriggered | SlotError | Rejected

  /** Observations by number: the target sensor, the slot's error, the device's answer. */
  datatype Trace = Trace(sensor: nat -> bool, fault: nat -> bool, answer: nat -> Answer)

  /** The first n answers. */
  function Given(t: Trace, n: nat): (answers: seq<Answer>)
    ensures |answers| == n && forall i :: 0 <= i < n ==> answers[i] == t.answer(i)
  {
    seq(n, i requires 0 <= i < n => t.answer(i))
  }

  /** The loop goes on to its (k + 1)st command: no sensor, no fault, length left and no fifth refusal in a row. */
  ghost predicate GoesOn(t: Trace, initial: int, max: int, increment: int, k: nat) {
    && !t.sensor(k + 1) && !t.fault(k)
    && initial + Fed(Given(t, k), increment) < max && Streak(Given(t, k)) < 5
  }

  ghost predicate Sent(t: Trace, initial: int, max: int, increment: int, n: nat) {
    !t.sensor(0) && forall k: nat :: k < n ==> GoesOn(t, initial, max, increment, k)
  }

  /** What each outcome says about the trace, when n commands were sent. */
  ghost predicate Explains(outcome: Outcome, t: Trace, initial: int, max: int, increment: int, n: nat) {
    var fed := initial + Fed(Given(t, n), increment);
    var over := t.sensor(n + 1) || fed >= max;
    match outcome
    case Reached =>
      (n == 0 && t.sensor(0))
      || (Sent(t, initial, max, increment, n) && Streak(Given(t, n)) < 5 && over && t.sensor(n + 2))
    case NotTriggered =>
      Sent(t, initial, max, increment, n) && Streak(Given(t, n)) < 5 && over && !t.sensor(n + 2)
    case SlotError =>
      Sent(t, initial, max, increment, n) && Streak(Given(t, n)) < 5 && !over && t.fault(n)
    case Rejected => Sent(t, initial, max, increment, n) && Streak(Given(t, n)) == 5
  }

  /** Lengths are in one fixed unit; initial is what the first feed already counted. */
  method FeedOn(initial: int, max: int, increment: int, t: Trace)
    returns (outcome: Outcome, fed: int, answers: seq<Answer>)
    requires increment > 0
    ensures fed == initial + Fed(answers, increment) && answers == Given(t, |answers|)
    ensures Explains(outcome, t, initial, max, increment, |answers|)
    ensures initial < max ==> fed < max + increment
    ensures initial >= max ==> fed == initial && answers == []
    ensures |answers| <= 5 * Increments(max - initial, increment)
    ensures outcome == Rejected <==> Streak(answers) == 5
    ensures Streak(answers) <= 5
    ensures outcome == NotTriggered && !(exists k: nat :: t.sensor(k)) ==> fed >= max
  {
    hide Fed, Streak, Given, GoesOn;
    fed, answers := initial, [];
    NoAnswers(t, increment);
    if t.sensor(0) {
      return Reached, fed, answers;
    }
    var looks, faults, streak := 1, 0, 0;
    while true
      invariant fed == initial + Fed(answers, increment) && answers == Given(t, |answers|)
      invariant initial < max ==> fed < max + increment
      invariant initial >= max ==> answers == []
      invariant streak == Streak(answers) < FORBIDDEN_MAX && (streak > 0 ==> fed < max)
      invariant |answers| + FORBIDDEN_MAX * Increments(max - fed, increment)
                <= FORBIDDEN_MAX * Increments(max - initial, increment) + streak
      invariant looks == |answers| + 1 && faults == |answers| && Sent(t, initial, max, increment, |answers|)
      decreases max - fed, FORBIDDEN_MAX - streak
    {
      looks := looks + 1;
      if t.sensor(looks - 1) || fed >= max {
        break;
      }
      faults := faults + 1;
      if t.fault(faults - 1) {
        return SlotError, fed, answers;
      }
      var answer := t.answer(|answers|);
      Continues(t, initial, max, increment, |answers|);
      Appended(t, answers, answer, increment);
      answers := answers + [answer];
      if answer == Forbidden {
        streak := streak + 1;
        if streak >= FORBIDDEN_MAX {
          return Rejected, fed, answers;
        }
      } else {
        streak := 0;
        fed := fed + increment;
      }
    }
    if t.sensor(looks) {
      outcome := Reached;
    } else {
      outcome := NotTriggered;
    }
  }

  lemma Continues(t: Trace, initial: int, max: int, increment: int, n: nat)
    requires Sent(t, initial, max, increment, n) && !t.sensor(n + 1) && !t.fault(n)
    requires initial + Fed(Given(t, n), increment) < max && Streak(Given(t, n)) < 5
    ensures Sent(t, initial, max, increment, n + 1)
  {
  }

  /** No trace is explained in two ways: the outcome and the commands are functions of what was observed. */
  lemma OutcomeIsDetermined(t: Trace, initial: int, max: int, increment: int, a: Outcome, m: nat, b: Outcome, n: nat)
    requires Explains(a, t, initial, max, increment, m) && Explains(b, t, initial, max, increment, n)
    ensures a == b && m == n
  {
    NoEarlierEnd(t, initial, max, increment, a, m, b, n);
    NoEarlierEnd(t, initial, max, increment, b, n, a, m);
  }

  lemma NoEarlierEnd(t: Trace, initial: int, max: int, increment: int, a: Outcome, m: nat, b: Outcome, n: nat)
    requires Explains(a, t, initial, max, increment, m) && Explains(b, t, initial, max, increment, n)
    ensures n <= m
  {
    hide Fed, Streak, Given;
    WentOn(t, initial, max, increment, n, m);
  }

  lemma WentOn(t: Trace, initial: int, max: int, increment: int, n: nat, k: nat)
    ensures Sent(t, initial, max, increment, n) && k < n ==> GoesOn(t, initial, max, increment, k)
  {
  }

  lemma NoAnswers(t: Trace, increment: int)
    ensures Fed([], increment) == 0 && Streak([]) == 0 && Given(t, 0) == []
  {
  }

  lemma Appended(t: Trace, answers: seq<Answer>, a: Answer, increment: int)
    ensures Fed(answers + [a], increment) == Fed(answers, increment) + if a.Counted? then increment else 0
    ensures Streak(answers + [a]) == if a.Counted? then 0 else Streak(answers) + 1
    ensures answers == Given(t, |answers|) && a == t.answer(|answers|) ==> answers + [a] == Given(t, |answers| + 1)
  {
    assert (answers + [a])[..|answers|] == answers;
  }
}
