/** The SGPA calculator page: a roster of subjects, each with a credit and a
    letter grade, reduced to the credit-weighted mean of the grade points. */
module SgpaCalculator {
  import opened Common
  import opened Roster

  /** One row of the subject roster. */
  datatype Subject = Subject(id: string, name: string, credit: real, grade: string)

  /** The field an edit of a row replaces, with its new value. */
  datatype SubjectEdit = SetName(name: string) | SetCredit(credit: real) | SetGrade(grade: string)

  /** Why the calculation shows an alert instead of a result. */
  datatype SgpaError = NoValidSubject

  /** What a successful calculation stores: the rounded SGPA and the credits behind it. */
  datatype SgpaResult = SgpaResult(sgpa: real, totalCredits: real)

  /** The grade scale: letter grade to grade point. */
  const GradePoints: map<string, int> :=
    map["A+" := 10, "A" := 9, "B+" := 8, "B" := 7, "C+" := 6, "C" := 5, "D" := 4, "F" := 0]

  lemma GradeScale()
    ensures GradePoints.Keys == {"A+", "A", "B+", "B", "C+", "C", "D", "F"}
    ensures forall g :: g in GradePoints ==> 0 <= GradePoints[g] <= 10
  {
  }

  /** The row `addSubject` appends and the page starts with. */
  function BlankSubject(id: string): Subject
  {
    Subject(id, "", 0.0, "")
  }

  /** A subject enters the SGPA when its credit is positive and its grade is on the scale. */
  predicate Counts(s: Subject)
    ensures Counts(s) <==> s.credit > 0.0 && s.grade in GradePoints
    ensures Counts(s) ==> 0 <= GradePoints[s.grade] <= 10
  {
    s.credit > 0.0 && s.grade != "" && s.grade in GradePoints
  }

  function ValidSubjects(subjects: seq<Subject>): seq<Subject>
  {
    Filter(subjects, Counts)
  }

  function Credit(s: Subject): real
  {
    s.credit
  }

  /** `subject.credit * gradePoints[subject.grade]`; only ever taken of counting subjects. */
  function WeightedPoints(s: Subject): real
  {
    if s.grade in GradePoints then s.credit * GradePoints[s.grade] as real else 0.0
  }

  /** Over counting subjects the credit total is positive and the weighted points lie
      between 0 and 10 times it. */
  lemma WeightedPointsInRange(valid: seq<Subject>)
    requires |valid| > 0
    requires forall i :: 0 <= i < |valid| ==> Counts(valid[i])
    ensures SumOf(valid, Credit) > 0.0
    ensures 0.0 <= SumOf(valid, WeightedPoints) <= 10.0 * SumOf(valid, Credit)
  {
    SumOfPositive(valid, Credit);
    var w, f := Credit, WeightedPoints;
    forall i | 0 <= i < |valid|
      ensures Scaled(0.0, w)(valid[i]) <= f(valid[i]) <= Scaled(10.0, w)(valid[i])
    {
      SubjectPointsInRange(valid[i]);
    }
    SumOfAbove(valid, w, f, 0.0);
    SumOfBelow(valid, w, f, 10.0);
  }

  /** A counting subject contributes between 0 and 10 points per credit. */
  lemma SubjectPointsInRange(s: Subject)
    requires Counts(s)
    ensures 0.0 * Credit(s) <= WeightedPoints(s) <= 10.0 * Credit(s)
  {
    var p := GradePoints[s.grade] as real;
    assert 0.0 <= p <= 10.0;
    MulBetween(s.credit, p, 0.0, 10.0);
  }

  /** The unrounded credit-weighted mean of a non-empty list of counting subjects lies in [0, 10]. */
  lemma WeightedMeanInRange(valid: seq<Subject>)
    requires |valid| > 0
    requires forall i :: 0 <= i < |valid| ==> Counts(valid[i])
    ensures SumOf(valid, Credit) > 0.0
    ensures 0.0 <= SumOf(valid, WeightedPoints) / SumOf(valid, Credit) <= 10.0
  {
    WeightedPointsInRange(valid);
    MeanWithinScale(SumOf(valid, WeightedPoints), SumOf(valid, Credit));
  }

  /** Points between 0 and 10 per credit average to a value in [0, 10]. */
  lemma MeanWithinScale(points: real, credits: real)
    requires credits > 0.0 && 0.0 <= points <= 10.0 * credits
    ensures 0.0 <= points / credits <= 10.0
  {
    QuotientBetween(points, credits, 0.0, 10.0);
  }

  /** What `calculateSGPA` computes from the roster: an alert when no subject counts,
      otherwise the rounded weighted mean and the total credit of the counting subjects. */
  function ComputeSgpa(subjects: seq<Subject>): (r: Result<SgpaResult, SgpaError>)
    ensures r.Failure? <==> forall s :: s in subjects ==> !Counts(s)
    ensures r.Success? ==> 0.0 <= r.value.sgpa <= 10.0 && r.value.totalCredits > 0.0
    ensures r.Success? ==> Round2(r.value.sgpa) == r.value.sgpa
  {
    var valid := ValidSubjects(subjects);
    if valid == [] then Failure(NoValidSubject)
    else
      WeightedMeanInRange(valid);
      var mean := SumOf(valid, WeightedPoints) / SumOf(valid, Credit);
      Round2Within(mean, 0, 1000);
      Round2Idempotent(mean);
      Success(SgpaResult(Round2(mean), SumOf(valid, Credit)))
  }

  /** Rows that do not count change nothing: the result depends on the counting rows only. */
  lemma InvalidRowsIgnored(subjects: seq<Subject>, extra: Subject)
    requires !Counts(extra)
    ensures ComputeSgpa(subjects + [extra]) == ComputeSgpa(subjects)
    ensures ComputeSgpa(ValidSubjects(subjects)) == ComputeSgpa(subjects)
  {
    FilterAppend(subjects, [extra], Counts);
    assert Filter([extra], Counts) == [];
    assert ValidSubjects(subjects + [extra]) == ValidSubjects(subjects);
    FilterKeepsAll(ValidSubjects(subjects), Counts);
  }

  lemma SgpaExamples()
    ensures ComputeSgpa([Subject("1", "", 4.0, "A")]) == Success(SgpaResult(9.0, 4.0))
    ensures ComputeSgpa([Subject("1", "", 3.0, "B+"), Subject("2", "", 2.0, "A")]) == Success(SgpaResult(8.4, 5.0))
    ensures ComputeSgpa([Subject("1", "", 0.0, "A"), Subject("2", "", 3.0, "")]) == Failure(NoValidSubject)
  {
    var one := [Subject("1", "", 4.0, "A")];
    assert ValidSubjects(one) == one;
    Round2OfHundredths(900);
    var two := [Subject("1", "", 3.0, "B+"), Subject("2", "", 2.0, "A")];
    assert ValidSubjects(two) == two;
    assert two[..1] == [two[0]] && two[..1][..0] == [];
    assert SumOf(two[..1], WeightedPoints) == 24.0;
    assert SumOf(two, WeightedPoints) == 42.0;
    assert SumOf(two[..1], Credit) == 3.0;
    assert SumOf(two, Credit) == 5.0;
    Round2OfHundredths(840);
  }

  // ---------------------------------------------------------------------------
  // Motivational message
  // ---------------------------------------------------------------------------

  datatype SgpaMessage = Excellent | GreatJob | GoodPerformance | FairPerformance | AveragePerformance | NeedsImprovement
  {
    function Text(): string
    {
      match this
      case Excellent => "🎉 Excellent! Outstanding performance!"
      case GreatJob => "🌟 Great job! Keep up the good work!"
      case GoodPerformance => "👍 Good performance! You're doing well!"
      case FairPerformance => "📚 Fair performance. Room for improvement!"
      case AveragePerformance => "⚠️ Average performance. Focus on weak subjects!"
      case NeedsImprovement => "🚨 Needs significant improvement. Don't give up!"
    }

    /** Position on the scale, 0 for the lowest band. */
    function Rank(): nat
    {
      match this
      case NeedsImprovement => 0
      case AveragePerformance => 1
      case FairPerformance => 2
      case GoodPerformance => 3
      case GreatJob => 4
      case Excellent => 5
    }
  }

  /** `getMotivationalMessage`: the first threshold the SGPA reaches. */
  function MotivationalMessage(sgpa: real): (m: SgpaMessage)
    ensures m.Rank() == if sgpa < 5.0 then 0 else if sgpa >= 9.0 then 5 else sgpa.Floor - 4
  {
    if sgpa >= 9.0 then Excellent
    else if sgpa >= 8.0 then GreatJob
    else if sgpa >= 7.0 then GoodPerformance
    else if sgpa >= 6.0 then FairPerformance
    else if sgpa >= 5.0 then AveragePerformance
    else NeedsImprovement
  }

  const MessageTable: seq<(real, SgpaMessage)> :=
    [(9.0, Excellent), (8.0, GreatJob), (7.0, GoodPerformance), (6.0, FairPerformance), (5.0, AveragePerformance)]

  /** The chain of ifs is the ordered lookup of the SGPA message table. */
  lemma MotivationalMessageIsTableLookup(sgpa: real)
    ensures MotivationalMessage(sgpa) == Classify(MessageTable, sgpa, NeedsImprovement)
  {
    var t5 := MessageTable;
    var t4, t3, t2, t1 := t5[1..], t5[2..], t5[3..], t5[4..];
    assert t1[1..] == [];
    assert Classify(t1, sgpa, NeedsImprovement) == if sgpa >= 5.0 then AveragePerformance else NeedsImprovement;
    assert t2[1..] == t1;
    assert Classify(t2, sgpa, NeedsImprovement) == if sgpa >= 6.0 then FairPerformance else Classify(t1, sgpa, NeedsImprovement);
    assert t3[1..] == t2;
    assert Classify(t3, sgpa, NeedsImprovement) == if sgpa >= 7.0 then GoodPerformance else Classify(t2, sgpa, NeedsImprovement);
    assert t4[1..] == t3;
    assert Classify(t4, sgpa, NeedsImprovement) == if sgpa >= 8.0 then GreatJob else Classify(t3, sgpa, NeedsImprovement);
    assert t5[1..] == t4;
  }

  /** A higher SGPA never gets a lower band. */
  lemma MotivationalMessageMonotone(x: real, y: real)
    requires x <= y
    ensures MotivationalMessage(x).Rank() <= MotivationalMessage(y).Rank()
  {
  }

  // ---------------------------------------------------------------------------
  // Downloaded report
  // ---------------------------------------------------------------------------

  /** One line of the report's SUBJECT DETAILS list. */
  datatype SubjectLine = SubjectLine(number: nat, caption: string, credit: real, grade: string, points: Option<int>)

  /** The report lists every row with a positive credit and some grade. */
  predicate Listed(s: Subject)
    ensures Counts(s) ==> Listed(s)
    ensures Listed(s) && s.grade in GradePoints ==> Counts(s)
  {
    s.credit > 0.0 && s.grade != ""
  }

  function LineFor(number: nat, s: Subject): SubjectLine
  {
    SubjectLine(number,
                if s.name != "" then s.name else "Subject " + NatToString(number),
                s.credit, s.grade,
                if s.grade in GradePoints then Some(GradePoints[s.grade]) else None)
  }

  /** The SUBJECT DETAILS lines of `downloadResults`: the listed rows in roster order,
      numbered from 1 by position among the listed rows. */
  function ReportLines(subjects: seq<Subject>): (lines: seq<SubjectLine>)
    ensures |lines| == |Filter(subjects, Listed)|
    ensures forall i :: 0 <= i < |lines| ==> lines[i].number == i + 1 && lines[i].caption != ""
    ensures forall i :: 0 <= i < |lines| ==>
      var s := Filter(subjects, Listed)[i];
      lines[i].credit == s.credit > 0.0 && lines[i].grade == s.grade != "" &&
      lines[i].points == (if s.grade in GradePoints then Some(GradePoints[s.grade]) else None) &&
      (s.name != "" ==> lines[i].caption == s.name) &&
      (s.name == "" ==> lines[i].caption == "Subject " + NatToString(i + 1))
  {
    var rows := Filter(subjects, Listed);
    seq(|rows|, i requires 0 <= i < |rows| => LineFor(i + 1, rows[i]))
  }

  /** Every subject that entered the SGPA appears in the report. */
  lemma CountedSubjectsAreListed(subjects: seq<Subject>, s: Subject)
    requires s in ValidSubjects(subjects)
    ensures s in Filter(subjects, Listed)
  {
  }

  /** Unnamed rows get default labels that tell them apart. */
  lemma DefaultLabelsDistinct(subjects: seq<Subject>, i: nat, j: nat)
    requires i < j < |ReportLines(subjects)|
    requires Filter(subjects, Listed)[i].name == "" && Filter(subjects, Listed)[j].name == ""
    ensures ReportLines(subjects)[i].caption != ReportLines(subjects)[j].caption
  {
    NumberedLabelsDiffer("Subject ", i + 1, j + 1);
  }

  // ---------------------------------------------------------------------------
  // Roster edits
  // ---------------------------------------------------------------------------

  function SubjectId(s: Subject): string
  {
    s.id
  }

  /** `updateSubject` replaces one field of the row; the id stays. */
  function Apply(edit: SubjectEdit): (f: Subject -> Subject)
    ensures forall s :: f(s).id == s.id
    ensures forall s :: edit.SetName? ==> f(s) == s.(name := edit.name)
    ensures forall s :: edit.SetCredit? ==> f(s) == s.(credit := edit.credit)
    ensures forall s :: edit.SetGrade? ==> f(s) == s.(grade := edit.grade)
  {
    (s: Subject) =>
      match edit
      case SetName(n) => s.(name := n)
      case SetCredit(c) => s.(credit := c)
      case SetGrade(g) => s.(grade := g)
  }

  /** Edits keep the id, so an edited roster with distinct ids still has distinct ids. */
  lemma UpdateSubjectKeepsIds(subjects: seq<Subject>, id: string, edit: SubjectEdit)
    requires DistinctIds(subjects, SubjectId)
    ensures DistinctIds(UpdateRows(subjects, SubjectId, id, Apply(edit)), SubjectId)
  {
    UpdateKeepsDistinct(subjects, SubjectId, id, Apply(edit));
  }

  /** Ids come from the clock, so two rows can share one; removing that id then takes out
      both, and a roster of two such rows becomes empty. */
  lemma RemoveSharedIdEmptiesRoster()
    ensures RemoveRow([BlankSubject("7"), BlankSubject("7")], SubjectId, "7") == []
  {
  }

  /** The `forEach` of `calculateSGPA`: credit times grade point, and credit, summed over the counting subjects. */
  method AccumulateSubjects(validSubjects: seq<Subject>) returns (totalGradePoints: real, totalCreds: real)
    requires forall i :: 0 <= i < |validSubjects| ==> Counts(validSubjects[i])
    ensures totalGradePoints == SumOf(validSubjects, WeightedPoints)
    ensures totalCreds == SumOf(validSubjects, Credit)
  {
    totalGradePoints := 0.0;
    totalCreds := 0.0;
    var i := 0;
    while i < |validSubjects|
      invariant 0 <= i <= |validSubjects|
      invariant totalGradePoints == SumOf(validSubjects[..i], WeightedPoints)
      invariant totalCreds == SumOf(validSubjects[..i], Credit)
    {
      var subject := validSubjects[i];
      var gradePoint := GradePoints[subject.grade];
      totalGradePoints := totalGradePoints + subject.credit * gradePoint as real;
      totalCreds := totalCreds + subject.credit;
      assert validSubjects[..i + 1][..i] == validSubjects[..i];
      i := i + 1;
    }
    assert validSubjects[..i] == validSubjects;
  }

  /** The page's React state: the roster, the last SGPA (none before the first
      successful calculation) and the credits behind it. */
  class SgpaPage {
    var subjects: seq<Subject>
    var sgpa: Option<real>
    var totalCredits: real

    /** A stored result is a rounded value in [0, 10] over a positive credit total;
        with none stored the total is 0. */
    predicate Valid()
      reads this
    {
      match sgpa
      case None => totalCredits == 0.0
      case Some(v) => 0.0 <= v <= 10.0 && Round2(v) == v && totalCredits > 0.0
    }

    constructor ()
      ensures subjects == [BlankSubject("1")] && sgpa == None && totalCredits == 0.0
      ensures Valid()
    {
      subjects := [BlankSubject("1")];
      sgpa := None;
      totalCredits := 0.0;
    }

    /** `addSubject`, with the id the page would draw from the clock passed in. */
    method AddSubject(id: string)
      requires Valid()
      modifies this`subjects
      ensures Valid()
      ensures subjects == old(subjects) + [BlankSubject(id)]
    {
      subjects := subjects + [BlankSubject(id)];
    }

    method RemoveSubject(id: string)
      requires Valid()
      modifies this`subjects
      ensures Valid()
      ensures subjects == RemoveRow(old(subjects), SubjectId, id)
    {
      if |subjects| > 1 {
        subjects := WithoutId(subjects, SubjectId, id);
      }
    }

    method UpdateSubject(id: string, edit: SubjectEdit)
      requires Valid()
      modifies this`subjects
      ensures Valid()
      ensures subjects == UpdateRows(old(subjects), SubjectId, id, Apply(edit))
    {
      subjects := UpdateRows(subjects, SubjectId, id, Apply(edit));
    }

    /** `calculateSGPA`: on an alert (`err` set) the stored result stays as it was;
        otherwise the SGPA and total credits of `ComputeSgpa` are stored. */
    method CalculateSgpa() returns (err: Option<SgpaError>)
      requires Valid()
      modifies this`sgpa, this`totalCredits
      ensures Valid()
      ensures match ComputeSgpa(subjects)
        case Failure(e) => err == Some(e) && sgpa == old(sgpa) && totalCredits == old(totalCredits)
        case Success(res) => err == None && sgpa == Some(res.sgpa) && totalCredits == res.totalCredits
    {
      var validSubjects := ValidSubjects(subjects);
      if |validSubjects| == 0 {
        return Some(NoValidSubject);
      }
      var totalGradePoints, totalCreds := AccumulateSubjects(validSubjects);
      assert totalCreds == ComputeSgpa(subjects).value.totalCredits;
      var calculatedSgpa := totalGradePoints / totalCreds;
      var res := SgpaResult(Round2(calculatedSgpa), totalCreds);
      assert ComputeSgpa(subjects) == Success(res);
      sgpa := Some(res.sgpa);
      totalCredits := res.totalCredits;
      err := None;
    }

    method ResetCalculator()
      modifies this
      ensures subjects == [BlankSubject("1")] && sgpa == None && totalCredits == 0.0
      ensures Valid()
    {
      subjects := [BlankSubject("1")];
      sgpa := None;
      totalCredits := 0.0;
    }
  }
}
