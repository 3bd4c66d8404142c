/**
 * `generateInsights`: the short lines of text shown with the analysis. For
 * each non-empty population, a line with its size and a line naming its
 * most common label (major for students, department for professors) with
 * that label's count; a waiting line when both populations are empty; and a
 * fixed fallback when no line was produced.
 */
module Insights {
  import opened JsValue
  import opened Buckets
  import opened Grouping
  import opened StableSort
  import opened ParseInt

  const StudentsPrefix := "عدد الطلاب المشاركين: "
  const TopMajorPrefix := "التخصص الأكثر مشاركة: "
  const StudentUnit := "طالب"
  const ProfessorsPrefix := "عدد أعضاء الهيئة التدريسية المشاركين: "
  const TopDepartmentPrefix := "القسم الأكثر مشاركة: "
  const ProfessorUnit := "عضو"
  const Waiting := "جاري انتظار المشاركات الأولى..."
  const NoInsights := "لا توجد insights متاحة حالياً"

  /** `${prefix}${n}`: a population size rendered with `String`. */
  function CountLine(prefix: string, n: nat): string {
    prefix + IntToString(n)
  }

  /** `${prefix}${top[0]} (${top[1]} ${unit})`. */
  function TopLine(prefix: string, top: (string, int), unit: string): string {
    prefix + top.0 + " (" + IntToString(top.1) + " " + unit + ")"
  }

  /** The entry `Object.entries(groupBy(...)).sort(...)[0]` picks, stated
      without the sort: the first entry of the tally carrying the largest
      count. `SortHead` proves the two agree. */
  function MostCommon(ks: seq<string>): (string, int)
    requires |ks| > 0
  {
    TallyNonEmpty(ks);
    var h := Tally(ks);
    h[FirstMax(h)]
  }

  lemma {:induction false} TallyNonEmpty(ks: seq<string>)
    requires |ks| > 0
    ensures |Tally(ks)| > 0
  {
  }

  /** The lines one population contributes. */
  function PopulationLines(items: seq<Record>, key: string, countPrefix: string, topPrefix: string, unit: string): seq<string> {
    if |items| == 0 then []
    else [CountLine(countPrefix, |items|), TopLine(topPrefix, MostCommon(GroupKeys(items, key)), unit)]
  }

  /** The lines pushed before the final fallback test. */
  function InsightLines(students: seq<Record>, professors: seq<Record>): seq<string> {
    PopulationLines(students, "major", StudentsPrefix, TopMajorPrefix, StudentUnit) +
    PopulationLines(professors, "department", ProfessorsPrefix, TopDepartmentPrefix, ProfessorUnit) +
    (if |students| == 0 && |professors| == 0 then [Waiting] else [])
  }

  /** The result of `generateInsights` as a specification. */
  function Insights(students: seq<Record>, professors: seq<Record>): seq<string> {
    var lines := InsightLines(students, professors);
    if |lines| > 0 then lines else [NoInsights]
  }

  method GenerateInsights(students: seq<Record>, professors: seq<Record>) returns (insights: seq<string>)
    ensures insights == Insights(students, professors)
  {
    insights := PopulationInsights(students, "major", StudentsPrefix, TopMajorPrefix, StudentUnit);
    var more := PopulationInsights(professors, "department", ProfessorsPrefix, TopDepartmentPrefix, ProfessorUnit);
    insights := insights + more;
    if |students| == 0 && |professors| == 0 {
      insights := insights + [Waiting];
    }
    if |insights| == 0 {
      insights := [NoInsights];
    }
  }

  /** One `if (items.length > 0) { ... }` block: the size line, then the
      head of the sorted `groupBy` entries when there is one. */
  method PopulationInsights(items: seq<Record>, key: string, countPrefix: string, topPrefix: string, unit: string)
    returns (lines: seq<string>)
    ensures lines == PopulationLines(items, key, countPrefix, topPrefix, unit)
  {
    lines := [];
    if |items| > 0 {
      lines := lines + [CountLine(countPrefix, |items|)];
      var groups := GroupBy(items, key);
      SortDescFacts(groups);
      var sorted := SortDesc(groups);
      if |sorted| > 0 {
        SortHead(groups);
        lines := lines + [TopLine(topPrefix, sorted[0], unit)];
      }
      assert |groups| > 0;
    }
  }

  /** The label `MostCommon` picks occurs, its count is its number of
      occurrences, no label occurs more often, and every label that first
      occurs earlier occurs strictly less often: ties go to the label seen
      first. */
  lemma {:induction false} MostCommonFacts(ks: seq<string>)
    requires |ks| > 0
    ensures var top := MostCommon(ks);
      top.0 in ks && top.1 == Occurrences(ks, top.0) &&
      (forall k :: Occurrences(ks, k) <= top.1) &&
      (forall k :: k in ks && FirstPos(ks, k) < FirstPos(ks, top.0) ==> Occurrences(ks, k) < top.1)
  {
    MostCommonMax(ks);
    MostCommonFirst(ks);
  }

  lemma {:induction false} MostCommonMax(ks: seq<string>)
    requires |ks| > 0
    ensures var top := MostCommon(ks);
      top.0 in ks && top.1 == Occurrences(ks, top.0) && forall k :: Occurrences(ks, k) <= top.1
  {
    var h := Tally(ks);
    TallyCounts(ks);
    TallyKeys(ks);
    var m := FirstMax(h);
    IndexOfDistinct(h, m);
    assert HasKey(h, h[m].0);
    forall k ensures Occurrences(ks, k) <= h[m].1 {
      if HasKey(h, k) {
        assert CountOf(h, k) == h[IndexOf(h, k)].1;
      }
    }
  }

  lemma {:induction false} MostCommonFirst(ks: seq<string>)
    requires |ks| > 0
    ensures var top := MostCommon(ks);
      forall k :: k in ks && FirstPos(ks, k) < FirstPos(ks, top.0) ==> Occurrences(ks, k) < top.1
  {
    var h := Tally(ks);
    TallyCounts(ks);
    TallyKeys(ks);
    var m := FirstMax(h);
    IndexOfDistinct(h, m);
    forall k | k in ks && FirstPos(ks, k) < FirstPos(ks, h[m].0) ensures Occurrences(ks, k) < h[m].1 {
      var q := IndexOf(h, k);
      assert HasKey(h, k);
      if q > m {
        TallyOrderAt(ks, m, q);
        assert false;
      }
      assert CountOf(h, k) == h[q].1;
    }
  }

  lemma {:induction false} TallyOrderAt(ks: seq<string>, i: nat, j: nat)
    requires i < j < |Tally(ks)|
    ensures FirstPos(ks, Tally(ks)[i].0) < FirstPos(ks, Tally(ks)[j].0)
  {
    TallyOrder(ks);
  }

  /** Some line is always pushed, so the fallback is never returned; the
      result has two lines per non-empty population, students first, and a
      single waiting line when both are empty. */
  lemma {:induction false} InsightsShape(students: seq<Record>, professors: seq<Record>)
    ensures var r := Insights(students, professors); var s := |students| > 0; var p := |professors| > 0;
      r == InsightLines(students, professors) &&
      |r| == (if s then 2 else 0) + (if p then 2 else 0) + (if !s && !p then 1 else 0) &&
      (!s && !p ==> r == [Waiting]) &&
      (s ==> r[0] == CountLine(StudentsPrefix, |students|) &&
             r[1] == TopLine(TopMajorPrefix, MostCommon(GroupKeys(students, "major")), StudentUnit)) &&
      (p ==> var o := if s then 2 else 0;
             r[o] == CountLine(ProfessorsPrefix, |professors|) &&
             r[o + 1] == TopLine(TopDepartmentPrefix, MostCommon(GroupKeys(professors, "department")), ProfessorUnit))
  {
    var a := PopulationLines(students, "major", StudentsPrefix, TopMajorPrefix, StudentUnit);
    var b := PopulationLines(professors, "department", ProfessorsPrefix, TopDepartmentPrefix, ProfessorUnit);
    var w: seq<string> := if |students| == 0 && |professors| == 0 then [Waiting] else [];
    var lines := a + b + w;
    assert InsightLines(students, professors) == lines;
    PopulationShape(students, "major", StudentsPrefix, TopMajorPrefix, StudentUnit);
    PopulationShape(professors, "department", ProfessorsPrefix, TopDepartmentPrefix, ProfessorUnit);
    assert |lines| > 0;
    assert forall i :: 0 <= i < |a| ==> lines[i] == a[i];
    assert forall i :: 0 <= i < |b| ==> lines[|a| + i] == b[i];
    if |students| == 0 && |professors| == 0 {
      assert lines == [Waiting];
    }
  }

  lemma {:induction false} PopulationShape(items: seq<Record>, key: string, countPrefix: string, topPrefix: string, unit: string)
    ensures var l := PopulationLines(items, key, countPrefix, topPrefix, unit);
      |l| == (if |items| > 0 then 2 else 0) &&
      (|items| > 0 ==> l[0] == CountLine(countPrefix, |items|) && l[1] == TopLine(topPrefix, MostCommon(GroupKeys(items, key)), unit))
  {
  }

  /** The number in a size line reads back as the size. */
  lemma {:induction false} CountLineReads(prefix: string, n: nat)
    ensures ParseIntString(CountLine(prefix, n)[|prefix|..]) == Some(n)
  {
    assert CountLine(prefix, n)[|prefix|..] == IntToString(n);
    ParseIntOfNumber(n);
  }

  /** Majors "CS", "CS", "Math": the top-major line names "CS" with 2
      students. */
  lemma {:induction false} TopMajorExample(students: seq<Record>)
    requires |students| == 3
    requires Get(students[0], "major") == Some(Str("CS")) && Get(students[1], "major") == Some(Str("CS"))
    requires Get(students[2], "major") == Some(Str("Math"))
    ensures var r := Insights(students, []);
      |r| == 2 && r[1] == TopMajorPrefix + "CS (2 " + StudentUnit + ")"
  {
    MajorsExample(students);
    MostCommonExample();
    TopLineExample(TopMajorPrefix, StudentUnit);
    InsightsShape(students, []);
  }

  lemma {:induction false} MajorsExample(students: seq<Record>)
    requires |students| == 3
    requires Get(students[0], "major") == Some(Str("CS")) && Get(students[1], "major") == Some(Str("CS"))
    requires Get(students[2], "major") == Some(Str("Math"))
    ensures GroupKeys(students, "major") == ["CS", "CS", "Math"]
  {
  }

  lemma {:induction false} TopLineExample(prefix: string, unit: string)
    ensures TopLine(prefix, ("CS", 2), unit) == prefix + "CS (2 " + unit + ")"
  {
    assert IntToString(2) == "2";
  }

  lemma {:induction false} MostCommonExample()
    ensures MostCommon(["CS", "CS", "Math"]) == ("CS", 2)
  {
    var ks := ["CS", "CS", "Math"];
    assert ks[..2] == ["CS", "CS"] && ks[..2][..1] == ["CS"] && ks[..2][..1][..0] == [];
    assert Tally(["CS"]) == [("CS", 1)];
    assert Tally(["CS", "CS"]) == [("CS", 2)];
    var h := Tally(ks);
    assert h == [("CS", 2), ("Math", 1)];
    assert FirstMax(h) == 0;
  }
}
