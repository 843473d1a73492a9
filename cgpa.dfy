/** The CGPA calculator page: a roster of semesters, each with its SGPA and
    credits, reduced to the credit-weighted mean of the SGPAs. */
module CgpaCalculator {
  import opened Common
  import opened Roster

  /** One row of the semester roster. */
  datatype Semester = Semester(id: string, name: string, sgpa: real, credits: real)

  /** The field an edit of a row replaces, with its new value. */
  datatype SemesterEdit = SetName(name: string) | SetSgpa(sgpa: real) | SetCredits(credits: real)

  /** Why the calculation shows an alert instead of a result. */
  datatype CgpaError = NoValidSemester

  /** What a successful calculation stores: the rounded CGPA and the credits behind it. */
  datatype CgpaResult = CgpaResult(cgpa: real, totalCredits: real)

  /** The row `addSemester` appends and the page starts with. */
  function BlankSemester(id: string): Semester
  {
    Semester(id, "", 0.0, 0.0)
  }

  /** A semester enters the CGPA when its SGPA lies in (0, 10] and its credits are positive. */
  predicate Counts(s: Semester)
    ensures Counts(s) ==> WeightedSgpa(s) > 0.0
  {
    s.sgpa > 0.0 && s.credits > 0.0 && s.sgpa <= 10.0
  }

  function ValidSemesters(semesters: seq<Semester>): seq<Semester>
  {
    Filter(semesters, Counts)
  }

  function Sgpa(s: Semester): real
  {
    s.sgpa
  }

  function Credits(s: Semester): real
  {
    s.credits
  }

  /** `semester.sgpa * semester.credits`. */
  function WeightedSgpa(s: Semester): real
  {
    s.sgpa * s.credits
  }

  /** When every SGPA lies in [lo, hi] and no credit is negative, the weighted SGPAs sum to
      between `lo` and `hi` times the credit total. */
  lemma {:induction false} WeightedSgpaBetween(valid: seq<Semester>, lo: real, hi: real)
    requires forall i :: 0 <= i < |valid| ==> valid[i].credits >= 0.0 && lo <= valid[i].sgpa <= hi
    ensures lo * SumOf(valid, Credits) <= SumOf(valid, WeightedSgpa) <= hi * SumOf(valid, Credits)
  {
    if valid != [] {
      var init, last := valid[..|valid| - 1], valid[|valid| - 1];
      WeightedSgpaBetween(init, lo, hi);
      MulBetween(last.credits, last.sgpa, lo, hi);
      Distribute(lo, SumOf(init, Credits), last.credits);
      Distribute(hi, SumOf(init, Credits), last.credits);
    }
  }

  /** Over counting semesters whose SGPAs lie in [lo, hi], the unrounded CGPA lies in [lo, hi]. */
  lemma WeightedMeanBetween(valid: seq<Semester>, lo: real, hi: real)
    requires |valid| > 0
    requires forall i :: 0 <= i < |valid| ==> Counts(valid[i]) && lo <= valid[i].sgpa <= hi
    ensures SumOf(valid, Credits) > 0.0
    ensures lo <= SumOf(valid, WeightedSgpa) / SumOf(valid, Credits) <= hi
  {
    SumOfPositive(valid, Credits);
    WeightedSgpaBetween(valid, lo, hi);
    QuotientBetween(SumOf(valid, WeightedSgpa), SumOf(valid, Credits), lo, hi);
  }

  /** The unrounded CGPA lies between the lowest and the highest SGPA that entered it,
      hence in (0, 10]. */
  lemma WeightedMeanBetweenExtremes(valid: seq<Semester>)
    requires |valid| > 0
    requires forall i :: 0 <= i < |valid| ==> Counts(valid[i])
    ensures SumOf(valid, Credits) > 0.0
    ensures MinOf(valid, Sgpa) <= SumOf(valid, WeightedSgpa) / SumOf(valid, Credits) <= MaxOf(valid, Sgpa)
    ensures 0.0 < SumOf(valid, WeightedSgpa) / SumOf(valid, Credits) <= 10.0
  {
    var lo, hi := MinOf(valid, Sgpa), MaxOf(valid, Sgpa);
    WeightedMeanBetween(valid, lo, hi);
    var a :| 0 <= a < |valid| && Sgpa(valid[a]) == lo;
    var b :| 0 <= b < |valid| && Sgpa(valid[b]) == hi;
    assert Counts(valid[a]) && Counts(valid[b]);
  }

  /** What `calculateCGPA` computes from the roster: an alert when no semester counts,
      otherwise the rounded weighted mean and the total credits of the counting semesters. */
  function ComputeCgpa(semesters: seq<Semester>): (r: Result<CgpaResult, CgpaError>)
    ensures r.Failure? <==> forall s :: s in semesters ==> !Counts(s)
    ensures r.Success? ==> 0.0 <= r.value.cgpa <= 10.0 && r.value.totalCredits > 0.0
    ensures r.Success? ==> Round2(r.value.cgpa) == r.value.cgpa
  {
    var valid := ValidSemesters(semesters);
    if valid == [] then Failure(NoValidSemester)
    else
      WeightedMeanBetweenExtremes(valid);
      var mean := SumOf(valid, WeightedSgpa) / SumOf(valid, Credits);
      Round2Within(mean, 0, 1000);
      Round2Idempotent(mean);
      Success(CgpaResult(Round2(mean), SumOf(valid, Credits)))
  }

  /** The rounded CGPA stays within the rounded lowest and highest SGPA that entered it. */
  lemma CgpaBetweenExtremes(semesters: seq<Semester>)
    requires ComputeCgpa(semesters).Success?
    ensures ValidSemesters(semesters) != []
    ensures Round2(MinOf(ValidSemesters(semesters), Sgpa)) <= ComputeCgpa(semesters).value.cgpa
    ensures ComputeCgpa(semesters).value.cgpa <= Round2(MaxOf(ValidSemesters(semesters), Sgpa))
  {
    var valid := ValidSemesters(semesters);
    WeightedMeanBetweenExtremes(valid);
    var mean := SumOf(valid, WeightedSgpa) / SumOf(valid, Credits);
    Round2Monotone(MinOf(valid, Sgpa), mean);
    Round2Monotone(mean, MaxOf(valid, Sgpa));
  }

  /** Rows that do not count change nothing: the result depends on the counting rows only. */
  lemma InvalidRowsIgnored(semesters: seq<Semester>, extra: Semester)
    requires !Counts(extra)
    ensures ComputeCgpa(semesters + [extra]) == ComputeCgpa(semesters)
    ensures ComputeCgpa(ValidSemesters(semesters)) == ComputeCgpa(semesters)
  {
    FilterAppend(semesters, [extra], Counts);
    assert Filter([extra], Counts) == [];
    assert ValidSemesters(semesters + [extra]) == ValidSemesters(semesters);
    FilterKeepsAll(ValidSemesters(semesters), Counts);
  }

  lemma CgpaExamples()
    ensures ComputeCgpa([Semester("1", "", 8.0, 20.0), Semester("2", "", 9.0, 20.0)]) == Success(CgpaResult(8.5, 40.0))
    ensures ComputeCgpa([Semester("1", "", 11.0, 20.0), Semester("2", "", 0.0, 20.0)]) == Failure(NoValidSemester)
  {
    var two := [Semester("1", "", 8.0, 20.0), Semester("2", "", 9.0, 20.0)];
    assert ValidSemesters(two) == two;
    assert two[..1] == [two[0]] && two[..1][..0] == [];
    assert SumOf(two[..1], WeightedSgpa) == 160.0;
    assert SumOf(two, WeightedSgpa) == 340.0;
    assert SumOf(two[..1], Credits) == 20.0;
    assert SumOf(two, Credits) == 40.0;
    Round2OfHundredths(850);
  }

  // ---------------------------------------------------------------------------
  // Motivational message
  // ---------------------------------------------------------------------------

  datatype CgpaMessage = Outstanding | Excellent | VeryGood | GoodPerformance | Satisfactory | AveragePerformance | BelowAverage
  {
    function Text(): string
    {
      match this
      case Outstanding => "🎓 Outstanding! You're among the top performers!"
      case Excellent => "🌟 Excellent! Exceptional academic performance!"
      case VeryGood => "🎉 Very Good! You're doing great!"
      case GoodPerformance => "👍 Good performance! Keep it up!"
      case Satisfactory => "📚 Satisfactory. There's room for improvement!"
      case AveragePerformance => "⚠️ Average performance. Focus on improvement!"
      case BelowAverage => "🚨 Below average. Time to work harder!"
    }

    /** Position on the scale, 0 for the lowest band. */
    function Rank(): nat
    {
      match this
      case BelowAverage => 0
      case AveragePerformance => 1
      case Satisfactory => 2
      case GoodPerformance => 3
      case VeryGood => 4
      case Excellent => 5
      case Outstanding => 6
    }
  }

  /** `getMotivationalMessage`: the first threshold the CGPA reaches; its rank is the
      number of the table's thresholds the CGPA reaches. */
  function MotivationalMessage(cgpa: real): (m: CgpaMessage)
    ensures m.Rank() == (if cgpa >= 9.5 then 1 else 0) + (if cgpa >= 9.0 then 1 else 0)
                      + (if cgpa >= 8.5 then 1 else 0) + (if cgpa >= 8.0 then 1 else 0)
                      + (if cgpa >= 7.0 then 1 else 0) + (if cgpa >= 6.0 then 1 else 0)
  {
    if cgpa >= 9.5 then Outstanding
    else if cgpa >= 9.0 then Excellent
    else if cgpa >= 8.5 then VeryGood
    else if cgpa >= 8.0 then GoodPerformance
    else if cgpa >= 7.0 then Satisfactory
    else if cgpa >= 6.0 then AveragePerformance
    else BelowAverage
  }

  const MessageTable: seq<(real, CgpaMessage)> :=
    [(9.5, Outstanding), (9.0, Excellent), (8.5, VeryGood), (8.0, GoodPerformance), (7.0, Satisfactory), (6.0, AveragePerformance)]

  /** The chain of ifs is the ordered lookup of the CGPA message table. */
  lemma MotivationalMessageIsTableLookup(cgpa: real)
    ensures MotivationalMessage(cgpa) == Classify(MessageTable, cgpa, BelowAverage)
  {
    var t6 := MessageTable;
    var t5, t4, t3, t2, t1 := t6[1..], t6[2..], t6[3..], t6[4..], t6[5..];
    assert t1[1..] == [];
    assert Classify(t1, cgpa, BelowAverage) == if cgpa >= 6.0 then AveragePerformance else BelowAverage;
    assert t2[1..] == t1;
    assert Classify(t2, cgpa, BelowAverage) == if cgpa >= 7.0 then Satisfactory else Classify(t1, cgpa, BelowAverage);
    assert t3[1..] == t2;
    assert Classify(t3, cgpa, BelowAverage) == if cgpa >= 8.0 then GoodPerformance else Classify(t2, cgpa, BelowAverage);
    assert t4[1..] == t3;
    assert Classify(t4, cgpa, BelowAverage) == if cgpa >= 8.5 then VeryGood else Classify(t3, cgpa, BelowAverage);
    assert t5[1..] == t4;
    assert Classify(t5, cgpa, BelowAverage) == if cgpa >= 9.0 then Excellent else Classify(t4, cgpa, BelowAverage);
    assert t6[1..] == t5;
  }

  /** A higher CGPA never gets a lower band. */
  lemma MotivationalMessageMonotone(x: real, y: real)
    requires x <= y
    ensures MotivationalMessage(x).Rank() <= MotivationalMessage(y).Rank()
  {
  }

  // ---------------------------------------------------------------------------
  // Downloaded report
  // ---------------------------------------------------------------------------

  /** One line of the report's SEMESTER DETAILS list. */
  datatype SemesterLine = SemesterLine(number: nat, caption: string, sgpa: real, credits: real)

  /** The report lists every row with a positive SGPA and positive credits; unlike the
      calculation it does not ask for SGPA <= 10. */
  predicate Listed(s: Semester)
    ensures Counts(s) ==> Listed(s)
    ensures Listed(s) && s.sgpa <= 10.0 ==> Counts(s)
  {
    s.sgpa > 0.0 && s.credits > 0.0
  }

  function LineFor(number: nat, s: Semester): SemesterLine
  {
    SemesterLine(number, if s.name != "" then s.name else "Semester " + NatToString(number), s.sgpa, s.credits)
  }

  /** The SEMESTER DETAILS lines of `downloadResults`: the listed rows in roster order,
      numbered from 1 by position among the listed rows. */
  function ReportLines(semesters: seq<Semester>): (lines: seq<SemesterLine>)
    ensures |lines| == |Filter(semesters, Listed)|
    ensures forall i :: 0 <= i < |lines| ==> lines[i].number == i + 1 && lines[i].caption != ""
    ensures forall i :: 0 <= i < |lines| ==>
      var s := Filter(semesters, Listed)[i];
      lines[i].sgpa == s.sgpa > 0.0 && lines[i].credits == s.credits > 0.0 &&
      (s.name != "" ==> lines[i].caption == s.name) &&
      (s.name == "" ==> lines[i].caption == "Semester " + NatToString(i + 1))
  {
    var rows := Filter(semesters, Listed);
    seq(|rows|, i requires 0 <= i < |rows| => LineFor(i + 1, rows[i]))
  }

  /** Every semester that entered the CGPA appears in the report. */
  lemma CountedSemestersAreListed(semesters: seq<Semester>, s: Semester)
    requires s in ValidSemesters(semesters)
    ensures s in Filter(semesters, Listed)
  {
  }

  /** Unnamed rows get default labels that tell them apart. */
  lemma DefaultLabelsDistinct(semesters: seq<Semester>, i: nat, j: nat)
    requires i < j < |ReportLines(semesters)|
    requires Filter(semesters, Listed)[i].name == "" && Filter(semesters, Listed)[j].name == ""
    ensures ReportLines(semesters)[i].caption != ReportLines(semesters)[j].caption
  {
    NumberedLabelsDiffer("Semester ", i + 1, j + 1);
  }

  /** A semester with an SGPA above 10 is listed in the report although the CGPA left it out. */
  lemma ReportListsExcludedSemester(semesters: seq<Semester>, s: Semester)
    requires s in semesters && s.sgpa > 10.0 && s.credits > 0.0
    ensures s in Filter(semesters, Listed) && s !in ValidSemesters(semesters)
    ensures ComputeCgpa(semesters + [s]) == ComputeCgpa(semesters)
  {
    InvalidRowsIgnored(semesters, s);
  }

  // ---------------------------------------------------------------------------
  // Roster edits
  // ---------------------------------------------------------------------------

  function SemesterId(s: Semester): string
  {
    s.id
  }

  /** `updateSemester` replaces one field of the row; the id stays. */
  function Apply(edit: SemesterEdit): (f: Semester -> Semester)
    ensures forall s :: f(s).id == s.id
    ensures forall s :: edit.SetName? ==> f(s) == s.(name := edit.name)
    ensures forall s :: edit.SetSgpa? ==> f(s) == s.(sgpa := edit.sgpa)
    ensures forall s :: edit.SetCredits? ==> f(s) == s.(credits := edit.credits)
  {
    (s: Semester) =>
      match edit
      case SetName(n) => s.(name := n)
      case SetSgpa(g) => s.(sgpa := g)
      case SetCredits(c) => s.(credits := c)
  }

  /** Edits keep the id, so an edited roster with distinct ids still has distinct ids. */
  lemma UpdateSemesterKeepsIds(semesters: seq<Semester>, id: string, edit: SemesterEdit)
    requires DistinctIds(semesters, SemesterId)
    ensures DistinctIds(UpdateRows(semesters, SemesterId, id, Apply(edit)), SemesterId)
  {
    UpdateKeepsDistinct(semesters, SemesterId, id, Apply(edit));
  }

  /** The `forEach` of `calculateCGPA`: SGPA times credits, and credits, summed over the counting semesters. */
  method AccumulateSemesters(validSemesters: seq<Semester>) returns (totalGradePoints: real, totalCreds: real)
    ensures totalGradePoints == SumOf(validSemesters, WeightedSgpa)
    ensures totalCreds == SumOf(validSemesters, Credits)
  {
    totalGradePoints := 0.0;
    totalCreds := 0.0;
    var i := 0;
    while i < |validSemesters|
      invariant 0 <= i <= |validSemesters|
      invariant totalGradePoints == SumOf(validSemesters[..i], WeightedSgpa)
      invariant totalCreds == SumOf(validSemesters[..i], Credits)
    {
      var semester := validSemesters[i];
      totalGradePoints := totalGradePoints + semester.sgpa * semester.credits;
      totalCreds := totalCreds + semester.credits;
      assert validSemesters[..i + 1][..i] == validSemesters[..i];
      i := i + 1;
    }
    assert validSemesters[..i] == validSemesters;
  }

  // ---------------------------------------------------------------------------
  // The page state
  // ---------------------------------------------------------------------------

  /** The page's React state: the roster, the last CGPA (none before the first
      successful calculation) and the credits behind it. */
  class CgpaPage {
    var semesters: seq<Semester>
    var cgpa: Option<real>
    var totalCredits: real

    /** A stored result is a rounded value in [0, 10] over a positive credit total;
        with none stored the total is 0. */
    predicate Valid()
      reads this
    {
      match cgpa
      case None => totalCredits == 0.0
      case Some(v) => 0.0 <= v <= 10.0 && Round2(v) == v && totalCredits > 0.0
    }

    constructor ()
      ensures semesters == [BlankSemester("1")] && cgpa == None && totalCredits == 0.0
      ensures Valid()
    {
      semesters := [BlankSemester("1")];
      cgpa := None;
      totalCredits := 0.0;
    }

    /** `addSemester`, with the id the page would draw from the clock passed in. */
    method AddSemester(id: string)
      requires Valid()
      modifies this`semesters
      ensures Valid()
      ensures semesters == old(semesters) + [BlankSemester(id)]
    {
      semesters := semesters + [BlankSemester(id)];
    }

    method RemoveSemester(id: string)
      requires Valid()
      modifies this`semesters
      ensures Valid()
      ensures semesters == RemoveRow(old(semesters), SemesterId, id)
    {
      if |semesters| > 1 {
        semesters := WithoutId(semesters, SemesterId, id);
      }
    }

    method UpdateSemester(id: string, edit: SemesterEdit)
      requires Valid()
      modifies this`semesters
      ensures Valid()
      ensures semesters == UpdateRows(old(semesters), SemesterId, id, Apply(edit))
    {
      semesters := UpdateRows(semesters, SemesterId, id, Apply(edit));
    }

    /** `calculateCGPA`: on an alert (`err` set) the stored result stays as it was;
        otherwise the CGPA and total credits of `ComputeCgpa` are stored. */
    method CalculateCgpa() returns (err: Option<CgpaError>)
      requires Valid()
      modifies this`cgpa, this`totalCredits
      ensures Valid()
      ensures match ComputeCgpa(semesters)
        case Failure(e) => err == Some(e) && cgpa == old(cgpa) && totalCredits == old(totalCredits)
        case Success(res) => err == None && cgpa == Some(res.cgpa) && totalCredits == res.totalCredits
    {
      var validSemesters := ValidSemesters(semesters);
      if |validSemesters| == 0 {
        return Some(NoValidSemester);
      }
      var totalGradePoints, totalCreds := AccumulateSemesters(validSemesters);
      assert totalCreds == ComputeCgpa(semesters).value.totalCredits;
      var calculatedCgpa := totalGradePoints / totalCreds;
      var res := CgpaResult(Round2(calculatedCgpa), totalCreds);
      assert ComputeCgpa(semesters) == Success(res);
      cgpa := Some(res.cgpa);
      totalCredits := res.totalCredits;
      err := None;
    }

    method ResetCalculator()
      modifies this
      ensures semesters == [BlankSemester("1")] && cgpa == None && totalCredits == 0.0
      ensures Valid()
    {
      semesters := [BlankSemester("1")];
      cgpa := None;
      totalCredits := 0.0;
    }
  }
}
