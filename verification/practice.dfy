/**
 * The child's practice screen (components/child-screen.tsx) in its only
 * implemented mode: every change of the typed text is checked against the
 * parent's password at once.
 *
 * The component's state is a record; one input change is `Type`, and the two
 * `setTimeout` callbacks that clear feedback after three seconds are explicit
 * events. Timing is not modelled: a timer event may arrive at any point of a
 * trace, which covers every real interleaving.
 */
module Practice {
  import opened Js

  /** Which message the feedback box shows, if any. */
  datatype Feedback = None | Success | TryAgain | TooLong

  /**
   * The component state. `score` is owned by the page and updated through
   * `onScoreChange`; it is kept here so that one record describes a visit.
   */
  datatype Session = Session(
    input: JsString,
    score: nat,
    attempts: nat,
    feedback: Feedback,
    isSuccess: bool,
    showCelebration: bool)

  /**
   * The state right after the screen is entered with the page's current
   * score: nothing typed, no attempts, nothing shown. It satisfies the
   * consistency invariant every event preserves, and shows no encouragement.
   */
  function Enter(score: nat): (s: Session)
    ensures s.score == score && s.attempts == 0 && |s.input| == 0
    ensures s.feedback == None && !s.showCelebration
    ensures Consistent(s)
    ensures EncouragementOf(s) == Hidden
  {
    Session([], score, 0, None, false, false)
  }

  /** What the effect does with the current input. */
  datatype Outcome = Matched | Mismatched(tooLong: bool) | Unchanged

  /**
   * Success needs a non-empty input equal to the target; failure needs a
   * non-empty, different input at least as long as the target; everything
   * else, including every strict prefix of the target, is left alone. A failure
   * is "too long" exactly when the input is longer than the target.
   */
  function Classify(input: JsString, target: JsString): (o: Outcome)
    ensures o == Matched <==> |input| > 0 && input == target
    ensures o.Mismatched? <==> |input| > 0 && input != target && |input| >= |target|
    ensures o == Unchanged <==> |input| == 0 || (input != target && |input| < |target|)
    ensures o.Mismatched? ==> (o.tooLong <==> |input| > |target|)
  {
    if |input| > 0 && input == target then Matched
    else if |input| > 0 && input != target && |input| >= |target| then Mismatched(|input| > |target|)
    else Unchanged
  }

  /**
   * The match/mismatch effect, run on the current state. It awards a star
   * only for a match and an attempt only for a mismatch, and it always
   * settles: the input it leaves behind never matches, so a re-run can never
   * award a second star.
   */
  function React(s: Session, target: JsString): (r: Session)
    ensures r.score == s.score + (if Classify(s.input, target) == Matched then 1 else 0)
    ensures r.attempts == s.attempts + (if Classify(s.input, target).Mismatched? then 1 else 0)
    ensures Classify(r.input, target) != Matched
  {
    match Classify(s.input, target)
    case Matched =>
      s.(isSuccess := true, feedback := Success, showCelebration := true,
         score := s.score + 1, input := [])
    case Mismatched(tooLong) =>
      s.(isSuccess := false, feedback := if tooLong then TooLong else TryAgain,
         attempts := s.attempts + 1)
    case Unchanged => s
  }

  /**
   * The child changes the text field to `candidate`; the effect then reacts to
   * the new input.
   */
  function Type(s: Session, target: JsString, candidate: JsString): (r: Session)
    ensures Classify(candidate, target) == Matched ==>
      && r.score == s.score + 1
      && r.attempts == s.attempts
      && |r.input| == 0
      && r.isSuccess && r.showCelebration && r.feedback == Success
    ensures Classify(candidate, target).Mismatched? ==>
      && r.score == s.score
      && r.attempts == s.attempts + 1
      && r.input == candidate
      && !r.isSuccess && r.showCelebration == s.showCelebration
      && r.feedback == (if |candidate| > |target| then TooLong else TryAgain)
    ensures Classify(candidate, target) == Unchanged ==> r == s.(input := candidate)
  {
    React(s.(input := candidate), target)
  }

  /**
   * The three-second callback scheduled by a success: it ends the success
   * display, so an encouragement reappears if there were attempts, and it
   * touches neither score, attempts nor the typed text.
   */
  function ClearAfterSuccess(s: Session): (r: Session)
    ensures r.score == s.score && r.attempts == s.attempts && r.input == s.input
    ensures r.feedback == None && !r.isSuccess && !r.showCelebration
    ensures EncouragementOf(r).Shown? <==> s.attempts > 0
  {
    s.(showCelebration := false, isSuccess := false, feedback := None)
  }

  /**
   * The three-second callback scheduled by a failure: it only empties the
   * feedback box, so the encouragement shown stays as it was.
   */
  function ClearAfterFailure(s: Session): (r: Session)
    ensures r.score == s.score && r.attempts == s.attempts && r.input == s.input
    ensures r.isSuccess == s.isSuccess && r.showCelebration == s.showCelebration
    ensures r.feedback == None
    ensures EncouragementOf(r) == EncouragementOf(s)
  {
    s.(feedback := None)
  }

  /**
   * The events the screen reacts to. The text field reports a change only
   * when its value differs from the current input. Switching the language
   * changes the translated messages the effect depends on, so the effect runs
   * again on the unchanged input.
   */
  datatype Event =
    | Typed(candidate: JsString)
    | LanguageSwitched
    | SuccessTimerFired
    | FailureTimerFired

  /** Which outcome an event makes the effect fire, judged from the typed text alone. */
  function Fires(input: JsString, target: JsString, e: Event): Outcome {
    match e
    case Typed(c) => if c == input then Unchanged else Classify(c, target)
    case LanguageSwitched => Classify(input, target)
    case SuccessTimerFired => Unchanged
    case FailureTimerFired => Unchanged
  }

  /** The typed text after an event, judged from the typed text alone. */
  function NextInput(input: JsString, target: JsString, e: Event): JsString {
    var typed := if e.Typed? then e.candidate else input;
    if Fires(input, target, e) == Matched then [] else typed
  }

  /**
   * One event. Score and attempts move only when the event makes the effect
   * fire, by exactly one star on a match and one attempt on a mismatch; the
   * typed text follows the text-only rule `NextInput`.
   */
  function Step(s: Session, target: JsString, e: Event): (r: Session)
    ensures r.score == s.score + (if Fires(s.input, target, e) == Matched then 1 else 0)
    ensures r.attempts == s.attempts + (if Fires(s.input, target, e).Mismatched? then 1 else 0)
    ensures r.input == NextInput(s.input, target, e)
  {
    match e
    case Typed(c) => if c == s.input then s else Type(s, target, c)
    case LanguageSwitched => React(s, target)
    case SuccessTimerFired => ClearAfterSuccess(s)
    case FailureTimerFired => ClearAfterFailure(s)
  }

  /** The state after a sequence of events, first event first. */
  function Run(s: Session, target: JsString, events: seq<Event>): Session
    decreases |events|
  {
    if |events| == 0 then s else Run(Step(s, target, events[0]), target, events[1..])
  }

  /** How many events of a trace fire a match, starting from the typed text `input`. */
  function Matches(target: JsString, input: JsString, events: seq<Event>): nat
    decreases |events|
  {
    if |events| == 0 then 0
    else
      (if Fires(input, target, events[0]) == Matched then 1 else 0)
      + Matches(target, NextInput(input, target, events[0]), events[1..])
  }

  /** How many events of a trace fire a mismatch, starting from the typed text `input`. */
  function Mismatches(target: JsString, input: JsString, events: seq<Event>): nat
    decreases |events|
  {
    if |events| == 0 then 0
    else
      (if Fires(input, target, events[0]).Mismatched? then 1 else 0)
      + Mismatches(target, NextInput(input, target, events[0]), events[1..])
  }

  // ---------------------------------------------------------------------
  // Properties of single transitions
  // ---------------------------------------------------------------------

  /** Typing the text that is already in the field is no change at all. */
  lemma RetypingSameTextIsNoChange(s: Session, target: JsString)
    ensures Step(s, target, Typed(s.input)) == s
  {
  }

  /**
   * A language switch re-runs the effect: with a failing input still in the
   * field it counts one more attempt.
   */
  lemma LanguageSwitchRecountsFailure(s: Session, target: JsString)
    requires Classify(s.input, target).Mismatched?
    ensures Step(s, target, LanguageSwitched).attempts == s.attempts + 1
    ensures Step(s, target, LanguageSwitched).score == s.score
  {
  }

  /**
   * The re-run caused by the page passing back the new score after a success
   * sees an empty input and changes nothing.
   */
  lemma ScoreRerunAfterSuccessIsHarmless(s: Session, target: JsString)
    requires Classify(s.input, target) == Matched
    ensures React(React(s, target), target) == React(s, target)
  {
  }

  /** The typed text is emptied exactly when it was empty or a match fired. */
  lemma InputClearedOnlyByMatch(s: Session, target: JsString, candidate: JsString)
    ensures |Type(s, target, candidate).input| == 0 <==>
      |candidate| == 0 || Classify(candidate, target) == Matched
  {
  }

  /** While the child is still typing the password, no strict prefix gives feedback. */
  lemma PrefixNeverFires(s: Session, target: JsString, candidate: JsString)
    requires |candidate| < |target| && candidate == target[..|candidate|]
    ensures Type(s, target, candidate) == s.(input := candidate)
  {
  }

  /** Typing the whole password always succeeds, whatever happened before. */
  lemma TargetAlwaysMatches(s: Session, target: JsString)
    requires |target| > 0
    ensures Type(s, target, target).score == s.score + 1
    ensures Type(s, target, target).feedback == Success
  {
  }

  /** A wrong input of exactly the target's length gets the generic retry message. */
  lemma EqualLengthMismatchIsTryAgain(s: Session, target: JsString, candidate: JsString)
    requires |candidate| == |target| > 0 && candidate != target
    ensures Type(s, target, candidate).feedback == TryAgain
  {
  }

  /**
   * With no password configured any non-empty input counts as "too long"; the
   * screen guards this case by not rendering its input field.
   */
  lemma EmptyTargetEveryInputTooLong(s: Session, candidate: JsString)
    requires |candidate| > 0
    ensures Type(s, [], candidate).feedback == TooLong
    ensures Type(s, [], candidate).attempts == s.attempts + 1
  {
  }

  // ---------------------------------------------------------------------
  // Properties of whole traces
  // ---------------------------------------------------------------------

  /**
   * Over any trace the score grows by exactly the number of events that fire
   * a match, a count that depends on the typed text alone.
   */
  lemma {:induction false} RunScore(s: Session, target: JsString, events: seq<Event>)
    ensures Run(s, target, events).score == s.score + Matches(target, s.input, events)
    decreases |events|
  {
    if |events| > 0 {
      RunScore(Step(s, target, events[0]), target, events[1..]);
    }
  }

  /**
   * Over any trace attempts grow by exactly the number of events that fire a
   * mismatch, a count that depends on the typed text alone.
   */
  lemma {:induction false} RunAttempts(s: Session, target: JsString, events: seq<Event>)
    ensures Run(s, target, events).attempts == s.attempts + Mismatches(target, s.input, events)
    decreases |events|
  {
    if |events| > 0 {
      RunAttempts(Step(s, target, events[0]), target, events[1..]);
    }
  }

  /** The score is non-decreasing along any trace. */
  lemma RunScoreNeverDecreases(s: Session, target: JsString, events: seq<Event>)
    ensures Run(s, target, events).score >= s.score
  {
    RunScore(s, target, events);
  }

  /**
   * The flags agree with the feedback box: success feedback is only shown with
   * the success flag, a failure message only without it, and the success flag
   * never outlives the celebration.
   */
  ghost predicate Consistent(s: Session) {
    && (s.feedback == Success ==> s.isSuccess)
    && (s.feedback == TryAgain || s.feedback == TooLong ==> !s.isSuccess)
    && (s.isSuccess ==> s.showCelebration)
  }

  lemma StepKeepsConsistent(s: Session, target: JsString, e: Event)
    requires Consistent(s)
    ensures Consistent(Step(s, target, e))
  {
  }

  /** Consistency is kept along every trace that starts in a consistent state. */
  lemma {:induction false} RunKeepsConsistent(s: Session, target: JsString, events: seq<Event>)
    requires Consistent(s)
    ensures Consistent(Run(s, target, events))
    decreases |events|
  {
    if |events| > 0 {
      StepKeepsConsistent(s, target, events[0]);
      RunKeepsConsistent(Step(s, target, events[0]), target, events[1..]);
    }
  }

  /** Every state reachable from entering the screen is consistent. */
  lemma ReachableStatesAreConsistent(score: nat, target: JsString, events: seq<Event>)
    ensures Consistent(Run(Enter(score), target, events))
  {
    RunKeepsConsistent(Enter(score), target, events);
  }

  /**
   * Timers are not cancelled or checked against newer feedback: a failure's
   * callback firing after a later success empties the success message while
   * the success flag and celebration stay on.
   */
  lemma StaleFailureTimerClearsSuccessFeedback()
    ensures var target := Units("cat");
      var r := Run(Enter(0), target, [Typed(Units("cab")), Typed(Units("cat")), FailureTimerFired]);
      && r.score == 1 && r.attempts == 1
      && r.isSuccess && r.showCelebration && r.feedback == None
  {
    var target := Units("cat");
    var wrong := Units("cab");
    assert wrong[2] != target[2];
    var events := [Typed(wrong), Typed(target), FailureTimerFired];
    var s1 := Step(Enter(0), target, events[0]);
    assert s1.attempts == 1 && s1.score == 0;
    var s2 := Step(s1, target, events[1]);
    assert s2.isSuccess && s2.score == 1;
    assert Run(Enter(0), target, events) == Run(s1, target, events[1..]);
    assert Run(s1, target, events[1..]) == Run(s2, target, events[2..]);
  }

  // ---------------------------------------------------------------------
  // Derived display values
  // ---------------------------------------------------------------------

  const StarsPerLevel := 5
  /** Length of the `levelNames` table in each language. */
  const LevelNameCount := 5
  /** Length of the `encouragement` table in each language. */
  const EncouragementCount := 5

  /** The score as the header shows it. */
  datatype Progress = Progress(level: nat, levelName: nat, stars: nat)

  /**
   * `currentLevel` is `floor(score / 5)`, `starsInLevel` is `score % 5` (the
   * number of filled stars out of five), and the level name is looked up at
   * `min(currentLevel, 4)`, so every score has a name.
   */
  function ProgressOf(score: nat): (p: Progress)
    ensures p.level * StarsPerLevel + p.stars == score && p.stars < StarsPerLevel
    ensures p.levelName < LevelNameCount && p.levelName <= p.level
    ensures p.level < LevelNameCount ==> p.levelName == p.level
    ensures p.level >= LevelNameCount - 1 ==> p.levelName == LevelNameCount - 1
  {
    var level := score / StarsPerLevel;
    Progress(level, if level < LevelNameCount - 1 then level else LevelNameCount - 1, score % StarsPerLevel)
  }

  datatype Encouragement = Hidden | Shown(index: nat)

  /**
   * The encouragement box appears when there were attempts and no success is
   * shown, and cycles through its table by `attempts % 5`.
   */
  function EncouragementOf(s: Session): (e: Encouragement)
    ensures e.Shown? <==> s.attempts > 0 && !s.isSuccess
    ensures e.Shown? ==>
      e.index < EncouragementCount && (s.attempts - e.index) % EncouragementCount == 0
  {
    if s.attempts > 0 && !s.isSuccess then Shown(s.attempts % EncouragementCount) else Hidden
  }

  /**
   * A success adds one star; the stars wrap to zero and the level goes up by
   * one exactly on every fifth star.
   */
  lemma SuccessAdvancesStars(s: Session, target: JsString, candidate: JsString)
    requires Classify(candidate, target) == Matched
    ensures var before := ProgressOf(s.score);
      var after := ProgressOf(Type(s, target, candidate).score);
      && after.stars == (before.stars + 1) % StarsPerLevel
      && after.level == before.level + (if after.stars == 0 then 1 else 0)
  {
    var before := ProgressOf(s.score);
    var after := ProgressOf(Type(s, target, candidate).score);
    assert after.level * 5 + after.stars == before.level * 5 + before.stars + 1;
    if before.stars == 4 {
      assert after.level * 5 + after.stars == (before.level + 1) * 5;
      assert after.stars == 0;
    } else {
      assert after.level * 5 + after.stars == before.level * 5 + (before.stars + 1);
      assert after.level == before.level;
    }
  }

  /** After a failed attempt an encouragement is on screen. */
  lemma FailureShowsEncouragement(s: Session, target: JsString, candidate: JsString)
    requires Classify(candidate, target).Mismatched?
    ensures EncouragementOf(Type(s, target, candidate)).Shown?
  {
  }

  /** While a success is displayed no encouragement is shown. */
  lemma SuccessHidesEncouragement(s: Session, target: JsString, candidate: JsString)
    requires Classify(candidate, target) == Matched
    ensures EncouragementOf(Type(s, target, candidate)) == Hidden
  {
  }
}
