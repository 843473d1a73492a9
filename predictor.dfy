/** The CGPA predictor page: from the current CGPA C over E earned credits, a target
    CGPA T and the N credits of the next semester, the SGPA the next semester needs,
    R = (T * (E + N) - C * E) / N, rounded to two decimals, with a verdict on how hard
    it is and the letter grade it corresponds to. */
module CgpaPredictor {
  import opened Common
  import SgpaCalculator

  /** Why the calculation shows an alert instead of a result, in the order the guards are tried. */
  datatype PredictError = NonPositiveInput | CgpaAboveTen | TargetBelowCurrent

  /** The unrounded SGPA the next semester needs: scoring it brings the CGPA to the target. */
  function RequiredSgpa(current: real, earned: real, target: real, next: real): (r: real)
    requires next != 0.0
    ensures earned + next != 0.0 ==> CgpaAfter(current, earned, r, next) == target
  {
    (target * (earned + next) - current * earned) / next
  }

  /** The CGPA after a semester of `next` credits at `sgpa`. */
  function CgpaAfter(current: real, earned: real, sgpa: real, next: real): real
    requires earned + next != 0.0
  {
    (current * earned + sgpa * next) / (earned + next)
  }

  /** What `calculateRequiredSGPA` computes: the three guards in their order, then the
      rounded requirement. A requirement above 10 is a result, not an error. */
  function Predict(current: real, earned: real, target: real, next: real): (r: Result<real, PredictError>)
    ensures r == Failure(NonPositiveInput) <==>
      current <= 0.0 || earned <= 0.0 || target <= 0.0 || next <= 0.0
    ensures r == Failure(CgpaAboveTen) <==>
      current > 0.0 && earned > 0.0 && target > 0.0 && next > 0.0 && (current > 10.0 || target > 10.0)
    ensures r == Failure(TargetBelowCurrent) <==>
      current > 0.0 && earned > 0.0 && target > 0.0 && next > 0.0 && current <= 10.0 && target <= 10.0 &&
      target < current
    ensures r.Success? ==> 0.0 <= Round2(target) <= r.value
    ensures r.Success? ==> Round2(r.value) == r.value
    ensures r.Success? && target == current ==> r.value == Round2(current)
  {
    if current <= 0.0 || earned <= 0.0 || target <= 0.0 || next <= 0.0 then Failure(NonPositiveInput)
    else if current > 10.0 || target > 10.0 then Failure(CgpaAboveTen)
    else if target < current then Failure(TargetBelowCurrent)
    else
      RequiredAtLeastTarget(current, earned, target, next);
      Round2Monotone(target, RequiredSgpa(current, earned, target, next));
      Round2Within(target, 0, 1000);
      Round2Idempotent(RequiredSgpa(current, earned, target, next));
      Success(Round2(RequiredSgpa(current, earned, target, next)))
  }

  /** With positive credits and a target no lower than the current CGPA, the requirement is
      at least the target, and exactly the current CGPA when the target is the current CGPA. */
  lemma RequiredAtLeastTarget(current: real, earned: real, target: real, next: real)
    requires earned > 0.0 && next > 0.0 && current <= target
    ensures RequiredSgpa(current, earned, target, next) >= target
    ensures target == current ==> RequiredSgpa(current, earned, target, next) == current
  {
    var gap := (target - current) * earned;
    assert gap >= 0.0;
    assert target * (earned + next) - current * earned == target * next + gap;
    assert (target * next + gap) / next == target + gap / next;
  }

  /** Earning exactly the requirement next semester lands the CGPA on the target. */
  lemma RequiredReachesTarget(current: real, earned: real, target: real, next: real)
    requires earned > 0.0 && next > 0.0
    ensures CgpaAfter(current, earned, RequiredSgpa(current, earned, target, next), next) == target
  {
    var r := RequiredSgpa(current, earned, target, next);
    assert r * next == target * (earned + next) - current * earned;
    assert current * earned + r * next == target * (earned + next);
  }

  /** And it is the only SGPA that does. */
  lemma RequiredIsUnique(current: real, earned: real, target: real, next: real, sgpa: real)
    requires earned > 0.0 && next > 0.0
    requires CgpaAfter(current, earned, sgpa, next) == target
    ensures sgpa == RequiredSgpa(current, earned, target, next)
  {
    assert current * earned + sgpa * next == target * (earned + next);
    assert sgpa * next == target * (earned + next) - current * earned;
  }

  /** A successful prediction is the requirement to the nearest hundredth: within half a
      hundredth of the one SGPA that lands exactly on the target. */
  lemma PredictionMeetsTarget(current: real, earned: real, target: real, next: real)
    requires Predict(current, earned, target, next).Success?
    ensures CgpaAfter(current, earned, RequiredSgpa(current, earned, target, next), next) == target
    ensures var r := Predict(current, earned, target, next).value;
      var exact := RequiredSgpa(current, earned, target, next);
      exact - 0.005 < r <= exact + 0.005
  {
    RequiredReachesTarget(current, earned, target, next);
  }

  lemma PredictExamples()
    ensures Predict(7.5, 100.0, 8.0, 25.0) == Success(10.0)
    ensures Predict(5.0, 100.0, 9.0, 10.0) == Success(49.0)
    ensures Predict(8.0, 50.0, 7.0, 20.0) == Failure(TargetBelowCurrent)
    ensures Predict(11.0, 50.0, 12.0, 20.0) == Failure(CgpaAboveTen)
    ensures Predict(0.0, 50.0, 8.0, 20.0) == Failure(NonPositiveInput)
  {
    assert RequiredSgpa(7.5, 100.0, 8.0, 25.0) == 10.0;
    Round2OfHundredths(1000);
    assert RequiredSgpa(5.0, 100.0, 9.0, 10.0) == 49.0;
    Round2OfHundredths(4900);
  }

  // ---------------------------------------------------------------------------
  // Verdict on the requirement
  // ---------------------------------------------------------------------------

  datatype Outlook = Challenging | Achievable | Easy | NotPossible | InvalidCalculation
  {
    function Text(): string
    {
      match this
      case Challenging => "🎯 Challenging but achievable! You'll need excellent performance."
      case Achievable => "✅ Achievable with consistent effort and good study habits."
      case Easy => "😊 Easily achievable! You're on the right track."
      case NotPossible => "❌ Target not possible with given credits. Consider increasing credits or adjusting target."
      case InvalidCalculation => "⚠️ Invalid calculation. Please check your inputs."
    }
  }

  /** `getResultMessage`: a requirement in (0, 10] is graded by difficulty, one above 10
      cannot be met, and anything else is flagged as invalid. */
  function ResultMessage(required: real): (o: Outlook)
    ensures o == InvalidCalculation <==> required <= 0.0
    ensures o == NotPossible <==> required > 10.0
    ensures o == Challenging <==> 9.0 <= required <= 10.0
    ensures o == Achievable <==> 7.0 <= required < 9.0
    ensures o == Easy <==> 0.0 < required < 7.0
  {
    if required <= 10.0 && required > 0.0 then
      if required >= 9.0 then Challenging
      else if required >= 7.0 then Achievable
      else Easy
    else if required > 10.0 then NotPossible
    else InvalidCalculation
  }

  /** Once the target is at least 0.005, no computed requirement is flagged as invalid. */
  lemma ComputedResultIsValid(current: real, earned: real, target: real, next: real)
    requires Predict(current, earned, target, next).Success?
    requires target >= 0.005
    ensures ResultMessage(Predict(current, earned, target, next).value) != InvalidCalculation
  {
    Round2Monotone(0.005, target);
    assert (0.005 * 100.0 + 0.5).Floor == 1;
  }

  /** The unrounded requirement is always positive, but a target below 0.005 rounds it
      to 0.00, which the page shows as "N/A" with the invalid-calculation message. */
  lemma TinyTargetRoundsToInvalid()
    ensures Predict(0.004, 1.0, 0.004, 1.0) == Success(0.0)
    ensures RequiredSgpa(0.004, 1.0, 0.004, 1.0) > 0.0
    ensures ResultMessage(0.0) == InvalidCalculation
    ensures DisplayedGrade(0.0) == None
  {
    assert RequiredSgpa(0.004, 1.0, 0.004, 1.0) == 0.004;
    assert (0.004 * 100.0 + 0.5).Floor == 0;
  }

  // ---------------------------------------------------------------------------
  // Equivalent grade
  // ---------------------------------------------------------------------------

  /** The letter grade of the requirement: the first threshold it reaches. */
  function EquivalentGrade(required: real): (g: string)
    ensures g in SgpaCalculator.GradePoints
    ensures required < 4.0 <==> g == "F"
    ensures 4.0 <= required <= 10.0 ==>
      SgpaCalculator.GradePoints[g] as real - 0.5 <= required < SgpaCalculator.GradePoints[g] as real + 0.5
  {
    if required >= 9.5 then "A+"
    else if required >= 8.5 then "A"
    else if required >= 7.5 then "B+"
    else if required >= 6.5 then "B"
    else if required >= 5.5 then "C+"
    else if required >= 4.5 then "C"
    else if required >= 4.0 then "D"
    else "F"
  }

  /** The grade is shown only for a requirement in (0, 10]. */
  function DisplayedGrade(required: real): (g: Option<string>)
    ensures g.Some? <==> 0.0 < required <= 10.0
    ensures g.Some? ==> g.value == EquivalentGrade(required)
  {
    if required > 0.0 && required <= 10.0 then Some(EquivalentGrade(required)) else None
  }

  /** A higher requirement never maps to a grade with fewer points. */
  lemma EquivalentGradeMonotone(x: real, y: real)
    requires x <= y
    ensures SgpaCalculator.GradePoints[EquivalentGrade(x)] <= SgpaCalculator.GradePoints[EquivalentGrade(y)]
  {
  }

  const GradeTable: seq<(real, string)> :=
    [(9.5, "A+"), (8.5, "A"), (7.5, "B+"), (6.5, "B"), (5.5, "C+"), (4.5, "C"), (4.0, "D")]

  /** The nested conditional is the ordered lookup of the grade threshold table. */
  lemma EquivalentGradeIsTableLookup(required: real)
    ensures EquivalentGrade(required) == Classify(GradeTable, required, "F")
  {
    var t7 := GradeTable;
    var t6, t5, t4, t3, t2, t1 := t7[1..], t7[2..], t7[3..], t7[4..], t7[5..], t7[6..];
    assert t1[1..] == [];
    assert Classify(t1, required, "F") == if required >= 4.0 then "D" else "F";
    assert t2[1..] == t1;
    assert Classify(t2, required, "F") == if required >= 4.5 then "C" else Classify(t1, required, "F");
    assert t3[1..] == t2;
    assert Classify(t3, required, "F") == if required >= 5.5 then "C+" else Classify(t2, required, "F");
    assert t4[1..] == t3;
    assert Classify(t4, required, "F") == if required >= 6.5 then "B" else Classify(t3, required, "F");
    assert t5[1..] == t4;
    assert Classify(t5, required, "F") == if required >= 7.5 then "B+" else Classify(t4, required, "F");
    assert t6[1..] == t5;
    assert Classify(t6, required, "F") == if required >= 8.5 then "A" else Classify(t5, required, "F");
    assert t7[1..] == t6;
  }

  // ---------------------------------------------------------------------------
  // Page state
  // ---------------------------------------------------------------------------

  /** The predictor page's state: the four inputs, the last stored requirement and
      whether a result is showing. */
  class PredictorPage {
    var currentCgpa: real
    var earnedCredits: real
    var targetCgpa: real
    var nextSemCredits: real
    var requiredSgpa: Option<real>
    var isCalculated: bool

    /** A result is showing exactly when a requirement is stored. */
    predicate Valid()
      reads this
    {
      isCalculated <==> requiredSgpa.Some?
    }

    constructor ()
      ensures currentCgpa == 0.0 && earnedCredits == 0.0 && targetCgpa == 0.0 && nextSemCredits == 0.0
      ensures requiredSgpa == None && !isCalculated
      ensures Valid()
    {
      currentCgpa, earnedCredits, targetCgpa, nextSemCredits := 0.0, 0.0, 0.0, 0.0;
      requiredSgpa, isCalculated := None, false;
    }

    /** `calculateRequiredSGPA`: on an alert (`err` set) nothing changes; otherwise the
        rounded requirement of `Predict` is stored and the result shown. */
    method CalculateRequiredSgpa() returns (err: Option<PredictError>)
      requires Valid()
      modifies this`requiredSgpa, this`isCalculated
      ensures Valid()
      ensures match Predict(currentCgpa, earnedCredits, targetCgpa, nextSemCredits)
        case Success(v) => err == None && requiredSgpa == Some(v) && isCalculated
        case Failure(e) => err == Some(e) && requiredSgpa == old(requiredSgpa) && isCalculated == old(isCalculated)
    {
      if currentCgpa <= 0.0 || earnedCredits <= 0.0 || targetCgpa <= 0.0 || nextSemCredits <= 0.0 {
        return Some(NonPositiveInput);
      }
      if currentCgpa > 10.0 || targetCgpa > 10.0 {
        return Some(CgpaAboveTen);
      }
      if targetCgpa < currentCgpa {
        return Some(TargetBelowCurrent);
      }
      var required := (targetCgpa * (earnedCredits + nextSemCredits) - currentCgpa * earnedCredits) / nextSemCredits;
      assert Predict(currentCgpa, earnedCredits, targetCgpa, nextSemCredits) == Success(Round2(required));
      requiredSgpa := Some(Round2(required));
      isCalculated := true;
      err := None;
    }

    /** `resetCalculator`: every input back to 0 and no result. */
    method ResetCalculator()
      modifies this
      ensures currentCgpa == 0.0 && earnedCredits == 0.0 && targetCgpa == 0.0 && nextSemCredits == 0.0
      ensures requiredSgpa == None && !isCalculated
      ensures Valid()
    {
      currentCgpa, earnedCredits, targetCgpa, nextSemCredits := 0.0, 0.0, 0.0, 0.0;
      requiredSgpa, isCalculated := None, false;
    }
  }
}
