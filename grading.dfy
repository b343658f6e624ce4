/**
 * The average-grade classifier shown on every student card and in the
 * grade report. Letters map to fixed anchors; the anchors are kept in
 * integer tenths of a point (A = 95.9 is 959), so the mean is the exact
 * fraction total / count and the pass mark 74.5 becomes 745.
 */
module Grading {

  import opened Records

  datatype Verdict = Pass | Fail

  /** What the classifier reports: "No grades", or a mean (as total over count, in tenths) with its verdict. */
  datatype Average = NoGrades | Mean(total: int, count: nat, verdict: Verdict)

  datatype Tally = Tally(total: int, count: nat)

  const PassMarkTenths := 745
  const LowestAnchor := 559
  const HighestAnchor := 959

  /** Upper-case letters a to z, leave every other character alone. */
  function UpperChar(c: char): char {
    if 'a' <= c <= 'z' then (c as int - 32) as char else c
  }

  function ToUpper(s: string): (r: string)
    ensures |r| == |s| && forall i :: 0 <= i < |s| ==> r[i] == UpperChar(s[i])
  {
    seq(|s|, i requires 0 <= i < |s| => UpperChar(s[i]))
  }

  /** The anchor table, looked up with an already upper-cased key. */
  function Anchor(key: string): Option<int> {
    if key == "A" then Some(959)
    else if key == "B" then Some(859)
    else if key == "C" then Some(759)
    else if key == "D" then Some(659)
    else if key == "F" then Some(559)
    else None
  }

  /** The points a letter as typed is worth, if it is recognised. */
  function Points(letter: string): (r: Option<int>)
    ensures r.Some? ==> |letter| == 1
    ensures r.Some? ==> LowestAnchor <= r.value <= HighestAnchor
  {
    Anchor(ToUpper(letter))
  }

  /** Exactly the five letters, in either case, are recognised, each at its anchor. */
  lemma PointsTable(letter: string)
    ensures Points(letter).Some? <==>
      letter in ["A", "a", "B", "b", "C", "c", "D", "d", "F", "f"]
    ensures letter == "A" || letter == "a" ==> Points(letter) == Some(959)
    ensures letter == "B" || letter == "b" ==> Points(letter) == Some(859)
    ensures letter == "C" || letter == "c" ==> Points(letter) == Some(759)
    ensures letter == "D" || letter == "d" ==> Points(letter) == Some(659)
    ensures letter == "F" || letter == "f" ==> Points(letter) == Some(559)
  {
    var u := ToUpper(letter);
    if Points(letter).Some? {
      assert |u| == 1 && |letter| == 1;
      assert u[0] == UpperChar(letter[0]);
      assert letter == [letter[0]];
    }
    if |letter| == 1 {
      assert u == [UpperChar(letter[0])];
    }
  }

  /**
   * The running sum and count of the recognised grades, taken in list
   * order; unrecognised letters add to neither.
   */
  function Sum(grades: seq<Grade>): (t: Tally)
    ensures t.count <= |grades|
    ensures LowestAnchor * t.count <= t.total <= HighestAnchor * t.count
    ensures t.count == 0 <==> forall i :: 0 <= i < |grades| ==> Points(grades[i].grade).None?
  {
    if grades == [] then Tally(0, 0)
    else
      var init := grades[..|grades| - 1];
      var t := Sum(init);
      assert forall i :: 0 <= i < |init| ==> init[i] == grades[i];
      match Points(grades[|grades| - 1].grade)
      case None => t
      case Some(p) =>
        PointsTable(grades[|grades| - 1].grade);
        Tally(t.total + p, t.count + 1)
  }

  /** `calculateAverageGrade` as a value. */
  function AverageOf(grades: seq<Grade>): (r: Average)
    ensures r.NoGrades? <==> forall i :: 0 <= i < |grades| ==> Points(grades[i].grade).None?
    ensures r.Mean? ==> r.count >= 1 && LowestAnchor * r.count <= r.total <= HighestAnchor * r.count
    ensures r.Mean? ==> (r.verdict == Pass <==> r.total >= PassMarkTenths * r.count)
  {
    var t := Sum(grades);
    if t.count == 0 then NoGrades
    else Mean(t.total, t.count, if t.total >= PassMarkTenths * t.count then Pass else Fail)
  }

  /**
   * The classifier as the portal runs it: an empty list is "No grades" at
   * once; otherwise one pass accumulates total and count, and no
   * recognised grade at all is again "No grades".
   */
  method CalculateAverageGrade(grades: seq<Grade>) returns (r: Average)
    ensures r == AverageOf(grades)
  {
    if |grades| == 0 {
      return NoGrades;
    }
    var total, count := 0, 0;
    var i := 0;
    while i < |grades|
      invariant 0 <= i <= |grades|
      invariant Tally(total, count) == Sum(grades[..i])
    {
      assert grades[..i + 1][..i] == grades[..i];
      var points := Points(grades[i].grade);
      if points.Some? {
        total := total + points.value;
        count := count + 1;
      }
      i := i + 1;
    }
    assert grades[..i] == grades;
    if count == 0 {
      return NoGrades;
    }
    var verdict := if total >= PassMarkTenths * count then Pass else Fail;
    r := Mean(total, count, verdict);
  }

  /** The recognised grades of a list, in order. */
  function Recognised(grades: seq<Grade>): (r: seq<Grade>)
    ensures |r| <= |grades|
    ensures forall g :: g in r <==> g in grades && Points(g.grade).Some?
  {
    if grades == [] then []
    else
      var last := grades[|grades| - 1];
      var init := grades[..|grades| - 1];
      assert grades == init + [last];
      Recognised(init) + (if Points(last.grade).Some? then [last] else [])
  }

  /** Unrecognised letters are skipped in both the sum and the count. */
  lemma {:induction false} SumSkipsUnrecognised(grades: seq<Grade>)
    ensures Sum(Recognised(grades)) == Sum(grades)
    ensures Sum(grades).count == |Recognised(grades)|
  {
    if grades != [] {
      var last := grades[|grades| - 1];
      var init := grades[..|grades| - 1];
      SumSkipsUnrecognised(init);
      var before := Recognised(init);
      if Points(last.grade).Some? {
        var r := before + [last];
        assert Recognised(grades) == r;
        assert r[..|r| - 1] == before;
        assert r[|r| - 1] == last;
      } else {
        assert Recognised(grades) == before;
      }
    }
  }

  /** The sum over two lists put together is the sum of their sums. */
  lemma {:induction false} SumAppend(a: seq<Grade>, b: seq<Grade>)
    ensures Sum(a + b) == Tally(Sum(a).total + Sum(b).total, Sum(a).count + Sum(b).count)
  {
    if b == [] {
      assert a + b == a;
    } else {
      var init := b[..|b| - 1];
      assert (a + b)[..|a + b| - 1] == a + init;
      assert (a + b)[|a + b| - 1] == b[|b| - 1];
      SumAppend(a, init);
    }
  }

  /** Letters are matched without regard to case: two lists that agree once upper-cased average the same. */
  lemma {:induction false} AverageIgnoresCase(grades: seq<Grade>, others: seq<Grade>)
    requires |grades| == |others|
    requires forall i :: 0 <= i < |grades| ==> ToUpper(grades[i].grade) == ToUpper(others[i].grade)
    ensures AverageOf(grades) == AverageOf(others)
  {
    SumIgnoresCase(grades, others);
  }

  lemma {:induction false} SumIgnoresCase(grades: seq<Grade>, others: seq<Grade>)
    requires |grades| == |others|
    requires forall i :: 0 <= i < |grades| ==> ToUpper(grades[i].grade) == ToUpper(others[i].grade)
    ensures Sum(grades) == Sum(others)
  {
    if grades != [] {
      var n := |grades| - 1;
      SumIgnoresCase(grades[..n], others[..n]);
    }
  }

  /** Letters A and B average 90.9, a pass. */
  lemma AverageOfAB()
    ensures AverageOf([Grade("Math", "A", "1", ""), Grade("Art", "B", "1", "")]) == Mean(1818, 2, Pass)
  {
    PointsTable("A");
    PointsTable("B");
  }

  /** Two Fs, in either case, average 55.9, a fail. */
  lemma AverageOfFF()
    ensures AverageOf([Grade("Math", "F", "1", ""), Grade("Art", "f", "1", "")]) == Mean(1118, 2, Fail)
  {
    PointsTable("F");
    PointsTable("f");
  }

  /** An unrecognised letter is left out: A and X average 95.9. */
  lemma AverageOfAX()
    ensures AverageOf([Grade("Math", "A", "1", ""), Grade("Art", "X", "1", "")]) == Mean(959, 1, Pass)
  {
    PointsTable("A");
    PointsTable("X");
  }
}
