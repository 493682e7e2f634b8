/**
 * The parent screen's live password-strength heuristic
 * (`calculatePasswordStrength` in components/admin-screen.tsx).
 *
 * The score is the sum of six independent rules: two on length and four on
 * the character classes present. The level is a function of the score alone,
 * and the crack-time label is a function of the level and the length. The
 * labels are an illustrative heuristic, not an entropy estimate.
 */
module Strength {
  import opened Js

  datatype Level = Weak | Fair | Good | Strong

  datatype CrackTime = Instant | Seconds | Minutes | Hours | Days | Months | Years | Centuries

  datatype PasswordStrength = PasswordStrength(score: int, level: Level, crackTime: CrackTime)

  /** The four bracket expressions the scorer tests for. */
  datatype CharClass =
    | Lower   // [a-z]
    | Upper   // [A-Z]
    | Digit   // [0-9]
    | Other   // [^A-Za-z0-9]

  /**
   * Membership of one code unit in a bracket expression. The ranges are
   * ASCII-only: a code unit outside ASCII is never a letter or digit here.
   */
  predicate InClass(cls: CharClass, c: CodeUnit)
    ensures c >= 0x80 ==> (InClass(cls, c) <==> cls == Other)
    decreases if cls == Other then 1 else 0
  {
    match cls
    case Lower => 0x61 <= c <= 0x7A
    case Upper => 0x41 <= c <= 0x5A
    case Digit => 0x30 <= c <= 0x39
    case Other => !(InClass(Lower, c) || InClass(Upper, c) || InClass(Digit, c))
  }

  /** Reference meaning of `/[...]/.test(s)`: some code unit of `s` is in the class. */
  ghost predicate Contains(s: JsString, cls: CharClass) {
    exists i :: 0 <= i < |s| && InClass(cls, s[i])
  }

  /** The regular-expression test, as a left-to-right scan for a matching code unit. */
  function Test(cls: CharClass, s: JsString): (found: bool)
    ensures found <==> Contains(s, cls)
  {
    if |s| == 0 then false
    else if InClass(cls, s[0]) then true
    else
      var rest := Test(cls, s[1..]);
      assert Contains(s[1..], cls) ==> Contains(s, cls) by {
        if Contains(s[1..], cls) {
          var i :| 0 <= i < |s[1..]| && InClass(cls, s[1..][i]);
          assert InClass(cls, s[i + 1]);
        }
      }
      assert Contains(s, cls) ==> Contains(s[1..], cls) by {
        if Contains(s, cls) {
          var i :| 0 <= i < |s| && InClass(cls, s[i]);
          assert i != 0;
          assert InClass(cls, s[1..][i - 1]);
        }
      }
      rest
  }

  /** The points the scorer awards for a rule that holds. */
  const LengthPoints := 25
  const LowerPoints := 10
  const UpperPoints := 10
  const DigitPoints := 10
  const OtherPoints := 20

  /** The cap applied by `Math.min(score, 100)`. */
  const MaxScore := 100

  /** The sum of the six rules before the cap, as the scorer accumulates it. */
  function RawScore(s: JsString): (raw: int)
    ensures 0 <= raw <= MaxScore
    ensures raw % 5 == 0
  {
    (if |s| >= 8 then LengthPoints else 0)
    + (if |s| >= 12 then LengthPoints else 0)
    + (if Test(Lower, s) then LowerPoints else 0)
    + (if Test(Upper, s) then UpperPoints else 0)
    + (if Test(Digit, s) then DigitPoints else 0)
    + (if Test(Other, s) then OtherPoints else 0)
  }

  /** Score thresholds: 75 and above is strong, 50 good, 25 fair, anything lower weak. */
  function LevelOf(score: int): (l: Level)
    ensures l == Strong <==> 75 <= score
    ensures l == Good <==> 50 <= score < 75
    ensures l == Fair <==> 25 <= score < 50
    ensures l == Weak <==> score < 25
  {
    if score >= 75 then Strong
    else if score >= 50 then Good
    else if score >= 25 then Fair
    else Weak
  }

  /** The length from which each level earns its upper crack-time label. */
  function LengthThreshold(level: Level): int {
    match level
    case Strong => 12
    case Good => 10
    case Fair => 8
    case Weak => 4
  }

  /**
   * Each level owns two adjacent crack-time labels and picks the upper one
   * from its length threshold on, so the label determines the level and the
   * labels are ordered first by level, then by length.
   */
  function CrackTimeOf(level: Level, length: int): (t: CrackTime)
    ensures LevelOfCrackTime(t) == level
    ensures CrackTimeRank(t) == 2 * LevelRank(level) + (if length >= LengthThreshold(level) then 1 else 0)
  {
    match level
    case Strong => if length >= 12 then Centuries else Years
    case Good => if length >= 10 then Months else Days
    case Fair => if length >= 8 then Hours else Minutes
    case Weak => if length >= 4 then Seconds else Instant
  }

  /** The level a crack-time label belongs to. */
  function LevelOfCrackTime(t: CrackTime): Level {
    match t
    case Instant => Weak
    case Seconds => Weak
    case Minutes => Fair
    case Hours => Fair
    case Days => Good
    case Months => Good
    case Years => Strong
    case Centuries => Strong
  }

  /** Position of a level in the order weak < fair < good < strong. */
  function LevelRank(l: Level): nat {
    match l
    case Weak => 0
    case Fair => 1
    case Good => 2
    case Strong => 3
  }

  /** Position of a crack-time label in the order instant < ... < centuries. */
  function CrackTimeRank(t: CrackTime): nat {
    match t
    case Instant => 0
    case Seconds => 1
    case Minutes => 2
    case Hours => 3
    case Days => 4
    case Months => 5
    case Years => 6
    case Centuries => 7
  }

  /**
   * `calculatePasswordStrength`: the empty password short-circuits to
   * (0, weak, instant); otherwise the level and crack time are computed from
   * the uncapped sum and the reported score is capped at 100.
   */
  function Evaluate(s: JsString): (r: PasswordStrength)
    ensures 0 <= r.score <= MaxScore
    ensures r.score % 5 == 0
    ensures |s| == 0 ==> r == PasswordStrength(0, Weak, Instant)
    ensures r.level == LevelOf(r.score)
    ensures r.crackTime == CrackTimeOf(r.level, |s|)
  {
    if |s| == 0 then PasswordStrength(0, Weak, Instant)
    else
      var score := RawScore(s);
      var level := LevelOf(score);
      PasswordStrength(if score < MaxScore then score else MaxScore, level, CrackTimeOf(level, |s|))
  }

  // ---------------------------------------------------------------------
  // Properties of the scorer
  // ---------------------------------------------------------------------

  /** Points for one rule, stated against the reference meaning of each test. */
  ghost function RulePoints(holds: bool, points: int): int {
    if holds then points else 0
  }

  /**
   * The score is exactly the sum of the six rules of the scoring table; the
   * two length rules are cumulative.
   */
  lemma ScoreIsSumOfRules(s: JsString)
    ensures Evaluate(s).score ==
      RulePoints(|s| >= 8, 25) + RulePoints(|s| >= 12, 25)
      + RulePoints(Contains(s, Lower), 10) + RulePoints(Contains(s, Upper), 10)
      + RulePoints(Contains(s, Digit), 10) + RulePoints(Contains(s, Other), 20)
  {
    RawScoreAtMostMax(s);
    if |s| == 0 {
      assert !Contains(s, Lower) && !Contains(s, Upper) && !Contains(s, Digit) && !Contains(s, Other);
    }
  }

  /** The six rules add up to at most 100, so the cap never changes the sum. */
  lemma RawScoreAtMostMax(s: JsString)
    ensures 0 <= RawScore(s) <= MaxScore
    ensures |s| > 0 ==> Evaluate(s).score == RawScore(s)
  {
  }

  /** The early return for the empty password agrees with the general rules. */
  lemma EmptyShortCircuitIsRedundant()
    ensures RawScore([]) == 0
    ensures Evaluate([]) == PasswordStrength(RawScore([]), LevelOf(RawScore([])), CrackTimeOf(LevelOf(RawScore([])), 0))
  {
  }

  /** A code unit is in exactly one of the three ASCII ranges or in the "other" class. */
  lemma ClassesPartition(c: CodeUnit)
    ensures (if InClass(Lower, c) then 1 else 0) + (if InClass(Upper, c) then 1 else 0)
          + (if InClass(Digit, c) then 1 else 0) + (if InClass(Other, c) then 1 else 0) == 1
  {
  }

  /**
   * The character classes are ASCII-only: any code unit outside ASCII, such as
   * the Polish letter U+0142, earns the 20 "other" points and nothing else.
   */
  lemma NonAsciiIsOther(c: CodeUnit)
    requires c >= 0x80
    ensures Evaluate([c]) == PasswordStrength(OtherPoints, Weak, Instant)
  {
    assert Test(Other, [c]);
    assert !Test(Lower, [c]) && !Test(Upper, [c]) && !Test(Digit, [c]);
  }

  /** Length 12 alone is worth 50 points, whatever the characters. */
  lemma LongPasswordScoresAtLeastFifty(s: JsString)
    requires |s| >= 12
    ensures Evaluate(s).score >= 50
    ensures LevelRank(Evaluate(s).level) >= LevelRank(Good)
  {
  }

  /** Under 8 code units only the class rules apply, so the score is at most 50. */
  lemma ShortPasswordScoresAtMostFifty(s: JsString)
    requires |s| < 8
    ensures Evaluate(s).score <= 50
    ensures Evaluate(s).level != Strong
  {
  }

  /** A strong password always has at least 8 code units. */
  lemma StrongNeedsEightUnits(s: JsString)
    requires Evaluate(s).level == Strong
    ensures |s| >= 8
  {
    if |s| < 8 {
      ShortPasswordScoresAtMostFifty(s);
    }
  }

  /** Raising the score never lowers the level. */
  lemma LevelOfMonotone(a: int, b: int)
    requires a <= b
    ensures LevelRank(LevelOf(a)) <= LevelRank(LevelOf(b))
  {
  }

  /** Crack-time labels are ordered first by level, then by length. */
  lemma CrackTimeOfMonotone(l1: Level, n1: int, l2: Level, n2: int)
    requires LevelRank(l1) <= LevelRank(l2)
    requires n1 <= n2
    ensures CrackTimeRank(CrackTimeOf(l1, n1)) <= CrackTimeRank(CrackTimeOf(l2, n2))
  {
  }

  /** A class occurs in a non-empty string exactly when it is its first code unit or occurs in the rest. */
  lemma ContainsCons(c: CodeUnit, s: JsString, cls: CharClass)
    ensures Contains([c] + s, cls) <==> InClass(cls, c) || Contains(s, cls)
  {
    var t := [c] + s;
    if Contains(t, cls) && !InClass(cls, c) {
      var i :| 0 <= i < |t| && InClass(cls, t[i]);
      assert s[i - 1] == t[i];
    }
    if Contains(s, cls) {
      var i :| 0 <= i < |s| && InClass(cls, s[i]);
      assert t[i + 1] == s[i];
    }
    assert t[0] == c;
  }

  /** A class present in `s` is still present once anything is appended. */
  lemma ContainsAppend(s: JsString, t: JsString, cls: CharClass)
    requires Contains(s, cls)
    ensures Contains(s + t, cls)
  {
    var i :| 0 <= i < |s| && InClass(cls, s[i]);
    assert (s + t)[i] == s[i];
  }

  /** Appending characters never takes a rule's points away: the raw sum only grows. */
  lemma RawScoreGrows(s: JsString, t: JsString)
    ensures RawScore(s) <= RawScore(s + t)
  {
    if Test(Lower, s) { ContainsAppend(s, t, Lower); }
    if Test(Upper, s) { ContainsAppend(s, t, Upper); }
    if Test(Digit, s) { ContainsAppend(s, t, Digit); }
    if Test(Other, s) { ContainsAppend(s, t, Other); }
  }

  /**
   * Appending characters to a password never lowers its score, its level or
   * its crack-time label.
   */
  lemma AppendNeverWeakens(s: JsString, t: JsString)
    ensures Evaluate(s).score <= Evaluate(s + t).score
    ensures LevelRank(Evaluate(s).level) <= LevelRank(Evaluate(s + t).level)
    ensures CrackTimeRank(Evaluate(s).crackTime) <= CrackTimeRank(Evaluate(s + t).crackTime)
  {
    var before, after := Evaluate(s), Evaluate(s + t);
    if |s| > 0 {
      RawScoreGrows(s, t);
      RawScoreAtMostMax(s);
      RawScoreAtMostMax(s + t);
      assert before.score == RawScore(s) && after.score == RawScore(s + t);
    }
    LevelOfMonotone(before.score, after.score);
    CrackTimeOfMonotone(before.level, |s|, after.level, |s + t|);
  }

  /** Appending one character is the case the live meter sees on every keystroke. */
  lemma AppendCharNeverWeakens(s: JsString, c: CodeUnit)
    ensures Evaluate(s).score <= Evaluate(s + [c]).score
    ensures LevelRank(Evaluate(s).level) <= LevelRank(Evaluate(s + [c]).level)
  {
    AppendNeverWeakens(s, [c]);
  }

  /** `"abcdefgh"`: eight lowercase letters score 25 for length plus 10 for lowercase, fair, hours. */
  lemma EightLowercaseExample()
    ensures Evaluate([0x61, 0x62, 0x63, 0x64, 0x65, 0x66, 0x67, 0x68]) == PasswordStrength(35, Fair, Hours)
  {
    var s: JsString := [0x61, 0x62, 0x63, 0x64, 0x65, 0x66, 0x67, 0x68];
    assert forall i :: 0 <= i < |s| ==> 0x61 <= s[i] <= 0x68;
    assert InClass(Lower, s[0]);
    assert !Contains(s, Upper) && !Contains(s, Digit) && !Contains(s, Other);
  }

  /**
   * A password with a character of each of the four classes earns all 50 class
   * points, so its score is those plus the length points.
   */
  lemma AllFourClassesScore(s: JsString, upper: nat, lower: nat, digit: nat, other: nat)
    requires upper < |s| && lower < |s| && digit < |s| && other < |s|
    requires InClass(Upper, s[upper]) && InClass(Lower, s[lower])
    requires InClass(Digit, s[digit]) && InClass(Other, s[other])
    ensures RawScore(s) == RulePoints(|s| >= 8, 25) + RulePoints(|s| >= 12, 25) + 50
    ensures Evaluate(s).score == RawScore(s)
  {
    ScoreIsSumOfRules(s);
    assert Contains(s, Upper) && Contains(s, Lower) && Contains(s, Digit) && Contains(s, Other);
  }

  /** `"Abcdef12!@"`: ten code units of all four classes score 75, strong, but only years below twelve. */
  lemma AllClassesTenExample()
    ensures Evaluate([0x41, 0x62, 0x63, 0x64, 0x65, 0x66, 0x31, 0x32, 0x21, 0x40]) == PasswordStrength(75, Strong, Years)
  {
    var s: JsString := [0x41, 0x62, 0x63, 0x64, 0x65, 0x66, 0x31, 0x32, 0x21, 0x40];
    AllFourClassesScore(s, 0, 1, 6, 8);
    var r := Evaluate(s);
    assert r.score == 75 && r.level == Strong;
    assert r.crackTime == Years;
  }

  /** `"Abcdefgh12!@"`: twelve code units of all four classes reach the maximum raw sum of exactly 100. */
  lemma MaximumScoreExample()
    ensures RawScore([0x41, 0x62, 0x63, 0x64, 0x65, 0x66, 0x67, 0x68, 0x31, 0x32, 0x21, 0x40]) == MaxScore
    ensures Evaluate([0x41, 0x62, 0x63, 0x64, 0x65, 0x66, 0x67, 0x68, 0x31, 0x32, 0x21, 0x40])
      == PasswordStrength(100, Strong, Centuries)
  {
    var s: JsString := [0x41, 0x62, 0x63, 0x64, 0x65, 0x66, 0x67, 0x68, 0x31, 0x32, 0x21, 0x40];
    AllFourClassesScore(s, 0, 1, 8, 10);
    var r := Evaluate(s);
    assert r.score == 100 && r.level == Strong;
    assert r.crackTime == Centuries;
  }
}
