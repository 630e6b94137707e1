/**
 The per-course progress figures that the home page, the account page, the
 course overview page and the certificate page compute the same way: lessons
 in the course, how many of them are completed, and the rounded integer
 percent.
 */
module Projection {
  import opened Schema
  import opened Seqs

  /**
   `Math.round(part / total * 100)`, or 0 for an empty course, idealised as
   integer round-half-up: 100 * part / total lies in [r - 1/2, r + 1/2).
   */
  function Percent(part: nat, total: nat): (r: nat)
    ensures total == 0 ==> r == 0
    ensures total > 0 ==> total * (2 * r - 1) <= 200 * part < total * (2 * r + 1)
    ensures part <= total ==> r <= 100
  {
    if total == 0 then 0
    else
      var r := (200 * part + total) / (2 * total);
      DivBounds(200 * part + total, 2 * total);
      PercentAtMost100(part, total, r);
      r
  }

  /** Floor division brackets the dividend. */
  lemma {:induction false} DivBounds(n: nat, d: nat)
    requires d > 0
    ensures d * (n / d) <= n < d * (n / d) + d
  {
  }

  lemma {:induction false} PercentAtMost100(part: nat, total: nat, r: nat)
    requires total > 0
    requires 2 * total * r <= 200 * part + total
    ensures part <= total ==> r <= 100
  {
    if part <= total && r > 100 {
      assert 2 * total * r >= 2 * total * 101 by {
        MulLeftMonotone(2 * total, 101, r);
      }
    }
  }

  lemma {:induction false} MulLeftMonotone(k: nat, a: int, b: int)
    requires a <= b
    ensures k * a <= k * b
  {
  }

  /** A positive factor can be cancelled from a strict inequality. */
  lemma {:induction false} CancelPositive(k: int, a: int, b: int)
    requires k > 0
    requires k * a < k * b
    ensures a < b
  {
    if a >= b {
      MulLeftMonotone(k, b, a);
    }
  }

  /** Completing more lessons never lowers the percent. */
  lemma {:induction false} PercentMonotone(a: nat, b: nat, total: nat)
    requires a <= b
    ensures Percent(a, total) <= Percent(b, total)
  {
    if total > 0 {
      var ra: int, rb: int := Percent(a, total), Percent(b, total);
      assert total * (2 * ra - 1) < total * (2 * rb + 1);
      CancelPositive(total, 2 * ra - 1, 2 * rb + 1);
    }
  }

  /** Every lesson completed means 100 percent. */
  lemma {:induction false} PercentFull(total: nat)
    requires total > 0
    ensures Percent(total, total) == 100
  {
    var r := Percent(total, total);
    assert total * (2 * r - 1) <= total * 200 < total * (2 * r + 1);
    CancelPositive(total, 2 * r - 1, 201);
    CancelPositive(total, 199, 2 * r + 1);
  }

  /** For courses under 200 lessons, 100 percent means every lesson completed. */
  lemma {:induction false} PercentHundredMeansAll(part: nat, total: nat)
    requires part <= total < 200
    requires Percent(part, total) == 100
    ensures part == total
  {
  }

  /** The bound 200 is tight: 199 of 200 lessons already rounds to 100 percent. */
  lemma {:induction false} PercentRoundsUpAt200()
    ensures Percent(199, 200) == 100
  {
  }

  /** The lessons of `c` whose ids are in the completed list. */
  function CompletedLessons(c: Course, completed: seq<string>): (r: seq<Lesson>) {
    Filter(c.coursesDtl, (l: Lesson) => l.id in completed)
  }

  /** `coursesDtl.filter(l => completedLessons.includes(l.id)).length`. */
  function CompletedCount(c: Course, completed: seq<string>): (r: nat)
    ensures r <= |c.coursesDtl|
  {
    |CompletedLessons(c, completed)|
  }

  /** A course with its computed progress fields. */
  datatype CourseProgress = CourseProgress(
    course: Course,
    progress: nat,
    completedCount: nat,
    totalLessons: nat)

  /** The per-course projection of the account page. */
  function ProjectCourse(c: Course, completed: seq<string>): (r: CourseProgress)
    ensures r.course == c
    ensures r.totalLessons == |c.coursesDtl|
    ensures r.completedCount == CompletedCount(c, completed) <= r.totalLessons
    ensures r.progress <= 100
    ensures r.totalLessons == 0 ==> r.progress == 0
    ensures r.totalLessons > 0 ==>
      r.totalLessons * (2 * r.progress - 1) <= 200 * r.completedCount < r.totalLessons * (2 * r.progress + 1)
  {
    var total := |c.coursesDtl|;
    var done := CompletedCount(c, completed);
    CourseProgress(c, Percent(done, total), done, total)
  }

  /** The count is the number of lessons whose id is completed: all of them
      exactly when every lesson id is completed, none exactly when no lesson id is. */
  lemma {:induction false} CompletedCountExtremes(c: Course, completed: seq<string>)
    ensures CompletedCount(c, completed) == |c.coursesDtl| <==>
            forall i :: 0 <= i < |c.coursesDtl| ==> c.coursesDtl[i].id in completed
    ensures CompletedCount(c, completed) == 0 <==>
            forall i :: 0 <= i < |c.coursesDtl| ==> c.coursesDtl[i].id !in completed
  {
    var p := (l: Lesson) => l.id in completed;
    FilterKeepsAll(c.coursesDtl, p);
    FilterKeepsNone(c.coursesDtl, p);
  }

  /** Completed ids of lessons outside this course do not change its count. */
  lemma {:induction false} CompletedCountIgnoresOtherIds(c: Course, completed: seq<string>, extra: seq<string>)
    requires forall i :: 0 <= i < |c.coursesDtl| ==> c.coursesDtl[i].id !in extra
    ensures CompletedCount(c, completed + extra) == CompletedCount(c, completed)
  {
    FilterCongruent(c.coursesDtl, (l: Lesson) => l.id in completed + extra,
                    (l: Lesson) => l.id in completed);
  }

  /** Completing more lessons never lowers the count. */
  lemma {:induction false} CompletedCountMonotone(lessons: seq<Lesson>, a: seq<string>, b: seq<string>)
    requires forall x :: x in a ==> x in b
    ensures |Filter(lessons, (l: Lesson) => l.id in a)| <= |Filter(lessons, (l: Lesson) => l.id in b)|
  {
    if |lessons| > 0 {
      CompletedCountMonotone(lessons[1..], a, b);
    }
  }

  /** A fully completed non-empty course is at 100 percent; below 200 lessons
      the converse holds as well. */
  lemma {:induction false} ProjectCourseComplete(c: Course, completed: seq<string>)
    ensures var r := ProjectCourse(c, completed);
      r.completedCount == r.totalLessons > 0 ==> r.progress == 100
    ensures var r := ProjectCourse(c, completed);
      r.progress == 100 && r.totalLessons < 200 ==> r.completedCount == r.totalLessons
  {
    var r := ProjectCourse(c, completed);
    if r.completedCount == r.totalLessons > 0 {
      PercentFull(r.totalLessons);
    }
    if r.progress == 100 && r.totalLessons < 200 {
      PercentHundredMeansAll(r.completedCount, r.totalLessons);
    }
  }

  /** Below 200 lessons, a non-empty course shows 100 percent exactly when
      every one of its lesson ids is completed. */
  lemma {:induction false} ProjectCourseHundredIff(c: Course, completed: seq<string>)
    requires 0 < |c.coursesDtl| < 200
    ensures ProjectCourse(c, completed).progress == 100 <==>
            forall i :: 0 <= i < |c.coursesDtl| ==> c.coursesDtl[i].id in completed
  {
    CompletedCountExtremes(c, completed);
    ProjectCourseComplete(c, completed);
  }

  /** Completing more lessons never lowers a course's progress. */
  lemma {:induction false} ProjectCourseMonotone(c: Course, a: seq<string>, b: seq<string>)
    requires forall x :: x in a ==> x in b
    ensures ProjectCourse(c, a).progress <= ProjectCourse(c, b).progress
  {
    CompletedCountMonotone(c.coursesDtl, a, b);
    PercentMonotone(CompletedCount(c, a), CompletedCount(c, b), |c.coursesDtl|);
  }
}
