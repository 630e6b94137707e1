/**
 The account dashboard (app/account/page.tsx): enrolled courses with their
 progress, the learning/completed split, the certificate and lesson totals,
 the category "Interests" pie and its conic-gradient segments.
 */
module Account {
  import opened Schema
  import opened Seqs
  import opened Projection
  import ProgressStore

  /** `courses.filter(c => enrolledCourses.includes(c.id))`. */
  function MyEnrolledCourses(courses: seq<Course>, enrolled: seq<string>): (r: seq<Course>)
    ensures SubseqOf(r, courses)
    ensures forall i :: 0 <= i < |r| ==> r[i] in courses && r[i].id in enrolled
    ensures forall i :: 0 <= i < |courses| && courses[i].id in enrolled ==> courses[i] in r
  {
    Filter(courses, (c: Course) => c.id in enrolled)
  }

  /** Enrolled ids that name no catalog course change nothing. */
  lemma {:induction false} EnrolledIgnoresUnknownIds(courses: seq<Course>, enrolled: seq<string>, extra: seq<string>)
    requires forall i :: 0 <= i < |courses| ==> courses[i].id !in extra
    ensures MyEnrolledCourses(courses, enrolled + extra) == MyEnrolledCourses(courses, enrolled)
  {
    FilterCongruent(courses, (c: Course) => c.id in enrolled + extra, (c: Course) => c.id in enrolled);
  }

  /** `processedCourses`: each enrolled course with its progress fields. */
  function ProcessedCourses(mine: seq<Course>, completed: seq<string>): (r: seq<CourseProgress>)
    ensures |r| == |mine|
    ensures forall i :: 0 <= i < |r| ==> r[i] == ProjectCourse(mine[i], completed)
    ensures forall i :: 0 <= i < |r| ==> r[i].course == mine[i] && r[i].progress <= 100
    ensures forall i :: 0 <= i < |r| ==> r[i].completedCount <= r[i].totalLessons == |mine[i].coursesDtl|
  {
    seq(|mine|, i requires 0 <= i < |mine| => ProjectCourse(mine[i], completed))
  }

  /** The "Continue Learning" tab. */
  function InProgressCourses(processed: seq<CourseProgress>): (r: seq<CourseProgress>)
    ensures SubseqOf(r, processed)
    ensures forall i :: 0 <= i < |r| ==> r[i].progress < 100
  {
    Filter(processed, (c: CourseProgress) => c.progress < 100)
  }

  /** The "Completed Courses" tab. */
  function CompletedCoursesList(processed: seq<CourseProgress>): (r: seq<CourseProgress>)
    ensures SubseqOf(r, processed)
    ensures forall i :: 0 <= i < |r| ==> r[i].progress == 100
  {
    Filter(processed, (c: CourseProgress) => c.progress == 100)
  }

  /** The two tabs split the processed courses: every course lands in exactly one. */
  lemma {:induction false} TabsPartition(processed: seq<CourseProgress>)
    requires forall i :: 0 <= i < |processed| ==> processed[i].progress <= 100
    ensures multiset(InProgressCourses(processed)) + multiset(CompletedCoursesList(processed))
            == multiset(processed)
    ensures |InProgressCourses(processed)| + |CompletedCoursesList(processed)| == |processed|
  {
    FilterPartition(processed, (c: CourseProgress) => c.progress < 100,
                    (c: CourseProgress) => c.progress == 100);
    FilterPartitionLength(processed, (c: CourseProgress) => c.progress < 100,
                          (c: CourseProgress) => c.progress == 100);
  }

  /** One entry of `categoryCounts`. */
  datatype CategoryCount = CategoryCount(name: string, count: nat)

  /** The record's keys, in insertion order. */
  function Names(cs: seq<CategoryCount>): (r: seq<string>) {
    seq(|cs|, i requires 0 <= i < |cs| => cs[i].name)
  }

  /** The record's values, in insertion order. */
  function Counts(cs: seq<CategoryCount>): (r: seq<int>) {
    seq(|cs|, i requires 0 <= i < |cs| => cs[i].count)
  }

  /** `categoryCounts[cat] = (categoryCounts[cat] || 0) + 1` on an
      insertion-ordered record. */
  function Tally(cs: seq<CategoryCount>, cat: string): (r: seq<CategoryCount>)
    ensures Names(r) == if cat in Names(cs) then Names(cs) else Names(cs) + [cat]
  {
    if |cs| == 0 then [CategoryCount(cat, 1)]
    else
      var head, rest := cs[0], Tally(cs[1..], cat);
      assert cs == [head] + cs[1..];
      NamesCons(head, cs[1..]);
      if head.name == cat then
        NamesCons(head.(count := head.count + 1), cs[1..]);
        [head.(count := head.count + 1)] + cs[1..]
      else
        NamesCons(head, rest);
        [head] + rest
  }

  /** The keys of a record with a known first entry. */
  lemma {:induction false} NamesCons(x: CategoryCount, cs: seq<CategoryCount>)
    ensures Names([x] + cs) == [x.name] + Names(cs)
  {
  }

  /** The values of a record with a known first entry. */
  lemma {:induction false} CountsCons(x: CategoryCount, cs: seq<CategoryCount>)
    ensures Counts([x] + cs) == [x.count] + Counts(cs)
  {
  }

  /** A tally adds exactly one to the total of the counts. */
  lemma {:induction false} TallySum(cs: seq<CategoryCount>, cat: string)
    ensures Sum(Counts(Tally(cs, cat))) == Sum(Counts(cs)) + 1
  {
    var r := Tally(cs, cat);
    if |cs| == 0 {
      assert Counts(r) == [1];
    } else {
      var t := cs[1..];
      assert cs == [cs[0]] + t;
      CountsCons(cs[0], t);
      assert Sum(Counts(cs)) == cs[0].count + Sum(Counts(t));
      if cs[0].name == cat {
        var h := cs[0].(count := cs[0].count + 1);
        assert r == [h] + t;
        CountsCons(h, t);
        assert Sum(Counts(r)) == h.count + Sum(Counts(t));
      } else {
        TallySum(t, cat);
        assert r == [cs[0]] + Tally(t, cat);
        CountsCons(cs[0], Tally(t, cat));
        assert Sum(Counts(r)) == cs[0].count + Sum(Counts(Tally(t, cat)));
      }
    }
  }

  /** On distinct keys, a tally bumps the category's own count and no other;
      a new category is appended with count 1. */
  lemma {:induction false} TallyCounts(cs: seq<CategoryCount>, cat: string)
    requires NoDup(Names(cs))
    ensures |Tally(cs, cat)| == |cs| + (if cat in Names(cs) then 0 else 1)
    ensures forall i :: 0 <= i < |cs| ==>
      Tally(cs, cat)[i].count == cs[i].count + (if cs[i].name == cat then 1 else 0)
    ensures cat !in Names(cs) ==> Tally(cs, cat)[|cs|].count == 1
  {
    if |cs| > 0 {
      NoDupTail(Names(cs));
      assert Names(cs)[1..] == Names(cs[1..]);
      if cs[0].name == cat {
        TallyHit(cs, cat);
      } else {
        TallyCounts(cs[1..], cat);
        TallyPass(cs, cat);
      }
    }
  }

  /** The tallied key comes first: no later key equals it. */
  lemma {:induction false} TallyHit(cs: seq<CategoryCount>, cat: string)
    requires NoDup(Names(cs)) && |cs| > 0 && cs[0].name == cat
    ensures forall i :: 1 <= i < |cs| ==> cs[i].name != cat
  {
    var ns := Names(cs);
    forall i | 1 <= i < |cs|
      ensures cs[i].name != cat
    {
      assert ns[0] == cat && ns[i] == cs[i].name;
      assert ns[0] != ns[i];
    }
  }

  /** The tallied key is not the first: the entries behind the first are the tally of the tail. */
  lemma {:induction false} TallyPass(cs: seq<CategoryCount>, cat: string)
    requires |cs| > 0 && cs[0].name != cat
    requires |Tally(cs[1..], cat)| >= |cs| - 1
    requires forall i :: 0 <= i < |cs| - 1 ==>
      Tally(cs[1..], cat)[i].count == cs[1..][i].count + (if cs[1..][i].name == cat then 1 else 0)
    ensures forall i :: 0 <= i < |cs| ==>
      Tally(cs, cat)[i].count == cs[i].count + (if cs[i].name == cat then 1 else 0)
  {
    var rest := Tally(cs[1..], cat);
    var r := Tally(cs, cat);
    assert r == [cs[0]] + rest;
    forall i | 1 <= i < |cs|
      ensures r[i].count == cs[i].count + (if cs[i].name == cat then 1 else 0)
    {
      assert r[i] == rest[i - 1] && cs[i] == cs[1..][i - 1];
    }
  }

  /** A duplicate-free sequence's tail is duplicate-free and lacks its head. */
  lemma {:induction false} NoDupTail(s: seq<string>)
    requires NoDup(s) && |s| > 0
    ensures NoDup(s[1..]) && s[0] !in s[1..]
  {
    forall i, j | 0 <= i < j < |s| - 1
      ensures s[1..][i] != s[1..][j]
    {
      assert s[1..][i] == s[i + 1] && s[1..][j] == s[j + 1];
    }
  }

  /** `category` of each course, in order. */
  function Categories(courses: seq<Course>): (r: seq<string>) {
    seq(|courses|, i requires 0 <= i < |courses| => courses[i].category)
  }

  /** The number of courses in category `cat`. */
  function CountIn(courses: seq<Course>, cat: string): (r: nat) {
    |Filter(courses, (c: Course) => c.category == cat)|
  }

  /** `categoryCounts`, filled by a left-to-right `forEach` over the courses;
      its keys are the categories in first-seen order. */
  function CategoryCounts(courses: seq<Course>): (r: seq<CategoryCount>)
    ensures Names(r) == FirstSeen(Categories(courses))
  {
    if |courses| == 0 then []
    else
      var n := |courses| - 1;
      assert Categories(courses)[..n] == Categories(courses[..n]);
      var before := CategoryCounts(courses[..n]);
      Tally(before, courses[n].category)
  }

  /** The counts add up to the number of courses. */
  lemma {:induction false} CategoryCountsSum(courses: seq<Course>)
    ensures Sum(Counts(CategoryCounts(courses))) == |courses|
  {
    if |courses| > 0 {
      var n := |courses| - 1;
      CategoryCountsSum(courses[..n]);
      TallySum(CategoryCounts(courses[..n]), courses[n].category);
    }
  }

  /** Appending a course adds one to its own category's count only. */
  lemma {:induction false} CountInSnoc(prefix: seq<Course>, last: Course, cat: string)
    ensures CountIn(prefix + [last], cat) == CountIn(prefix, cat) + (if last.category == cat then 1 else 0)
  {
    FilterAppend(prefix, [last], (c: Course) => c.category == cat);
  }

  /** Each category's count is the number of courses in it. */
  lemma {:induction false} CategoryCountsCount(courses: seq<Course>)
    ensures var r := CategoryCounts(courses);
      forall i :: 0 <= i < |r| ==> r[i].count == CountIn(courses, r[i].name)
  {
    if |courses| > 0 {
      var n := |courses| - 1;
      var prefix, last := courses[..n], courses[n];
      CategoryCountsCount(prefix);
      assert courses == prefix + [last];
      var r := CategoryCounts(courses);
      forall i | 0 <= i < |r|
        ensures r[i].count == CountIn(prefix + [last], r[i].name)
      {
        TallyCountStep(prefix, last, i);
      }
    }
  }

  /** One `forEach` step keeps every count equal to the number of courses seen so far. */
  lemma {:induction false} TallyCountStep(prefix: seq<Course>, last: Course, i: nat)
    requires var b := CategoryCounts(prefix);
      forall k :: 0 <= k < |b| ==> b[k].count == CountIn(prefix, b[k].name)
    requires i < |Tally(CategoryCounts(prefix), last.category)|
    ensures var r := Tally(CategoryCounts(prefix), last.category);
      r[i].count == CountIn(prefix + [last], r[i].name)
  {
    var before := CategoryCounts(prefix);
    TallyCounts(before, last.category);
    var r := Tally(before, last.category);
    var cat := r[i].name;
    CountInSnoc(prefix, last, cat);
    if i < |before| {
      assert Names(r)[i] == Names(before)[i];
    } else {
      assert Names(r)[i] == cat;
      CountInAbsent(prefix, cat);
    }
  }

  /** A category that is not among the first-seen categories has no courses. */
  lemma {:induction false} CountInAbsent(courses: seq<Course>, cat: string)
    requires cat !in FirstSeen(Categories(courses))
    ensures CountIn(courses, cat) == 0
  {
    forall j | 0 <= j < |courses|
      ensures courses[j].category != cat
    {
      assert Categories(courses)[j] == courses[j].category;
    }
    FilterKeepsNone(courses, (c: Course) => c.category == cat);
  }

  /** There are category counts exactly when there are courses. */
  lemma {:induction false} CategoryCountsEmpty(courses: seq<Course>)
    ensures |CategoryCounts(courses)| == 0 <==> |courses| == 0
  {
    if |courses| > 0 {
      var r := CategoryCounts(courses);
      assert Categories(courses)[0] in FirstSeen(Categories(courses));
      assert |Names(r)| > 0;
    }
  }

  /** One slice of the "Interests" pie. */
  datatype PieSlice = PieSlice(name: string, value: nat, color: string)

  const PieColors: seq<string> := ["#1d526d", "#689ea1", "#22c55e", "#f3f0ed", "#94a3b8"]

  /** `pieData`: each category's rounded share of the enrolled courses, coloured cyclically. */
  function PieData(counts: seq<CategoryCount>, totalEnrolled: nat): (r: seq<PieSlice>)
    ensures |r| == |counts| && Names(counts) == seq(|r|, i requires 0 <= i < |r| => r[i].name)
    ensures forall i :: 0 <= i < |r| ==> r[i].color == PieColors[i % 5]
    ensures forall i :: 0 <= i < |r| ==>
      r[i].name == counts[i].name && r[i].value == Percent(counts[i].count, totalEnrolled)
    ensures forall i :: 0 <= i < |r| && counts[i].count <= totalEnrolled ==> r[i].value <= 100
  {
    seq(|counts|, i requires 0 <= i < |counts| =>
      PieSlice(counts[i].name, Percent(counts[i].count, totalEnrolled), PieColors[i % |PieColors|]))
  }

  function Values(pie: seq<PieSlice>): (r: seq<int>) {
    seq(|pie|, i requires 0 <= i < |pie| => pie[i].value)
  }

  /** One `color start% end%` stop of the conic gradient. */
  datatype Segment = Segment(color: string, start: int, end: int)

  /** The gradient stops: slice `i` starts at the `reduce` of the earlier values. */
  function ConicStops(pie: seq<PieSlice>): (r: seq<Segment>)
    ensures |r| == |pie|
    ensures forall i :: 0 <= i < |r| ==> r[i].color == pie[i].color && r[i].end - r[i].start == pie[i].value
  {
    seq(|pie|, i requires 0 <= i < |pie| =>
      var prevSum := Sum(Values(pie)[..i]);
      Segment(pie[i].color, prevSum, prevSum + pie[i].value))
  }

  /** The segments tile [0, total) in order: the first starts at 0, each
      starts where the previous one ends, and the last ends at the total. */
  lemma {:induction false} ConicStopsContiguous(pie: seq<PieSlice>)
    ensures var s := ConicStops(pie);
      (|s| > 0 ==> s[0].start == 0 && s[|s| - 1].end == Sum(Values(pie))) &&
      forall i :: 0 <= i < |s| - 1 ==> s[i + 1].start == s[i].end
  {
    var v := Values(pie);
    forall i | 0 <= i < |pie|
      ensures Sum(v[..i + 1]) == Sum(v[..i]) + pie[i].value
    {
      SumPrefixStep(v, i);
    }
    if |pie| > 0 {
      assert v[..0] == [];
      assert v[..|pie|] == v;
    }
  }

  /** The stops computed with one running offset, as a single pass would. */
  method ConicStopsRunning(pie: seq<PieSlice>) returns (stops: seq<Segment>)
    ensures stops == ConicStops(pie)
  {
    var v := Values(pie);
    stops := [];
    var offset := 0;
    var i := 0;
    while i < |pie|
      invariant 0 <= i <= |pie|
      invariant offset == Sum(v[..i])
      invariant stops == ConicStops(pie)[..i]
    {
      SumPrefixStep(v, i);
      stops := stops + [Segment(pie[i].color, offset, offset + pie[i].value)];
      offset := offset + pie[i].value;
      i := i + 1;
    }
  }

  /** Everything the dashboard derives from the catalog and the store. */
  datatype Dashboard = Dashboard(
    myCourses: seq<Course>,
    processed: seq<CourseProgress>,
    inProgress: seq<CourseProgress>,
    completed: seq<CourseProgress>,
    totalCertificates: nat,
    totalLessonsDone: nat,
    totalEnrolled: nat,
    pie: seq<PieSlice>)

  function AccountDashboard(courses: seq<Course>, p: ProgressStore.Progress): (r: Dashboard)
    ensures r.myCourses == MyEnrolledCourses(courses, p.enrolledCourses)
    ensures r.processed == ProcessedCourses(r.myCourses, p.completedLessons)
    ensures r.inProgress == InProgressCourses(r.processed) && r.completed == CompletedCoursesList(r.processed)
    ensures r.pie == PieData(CategoryCounts(r.myCourses), r.totalEnrolled)
    ensures SubseqOf(r.myCourses, courses)
    ensures r.totalEnrolled == |r.myCourses| == |r.processed|
    ensures |r.inProgress| + |r.completed| == |r.processed|
    ensures r.totalCertificates == |r.completed|
    ensures r.totalLessonsDone == |p.completedLessons|
    ensures r.totalEnrolled == 0 <==> r.pie == []
    ensures forall i :: 0 <= i < |r.pie| ==> r.pie[i].value <= 100
    ensures forall i :: 0 <= i < |r.pie| ==>
      r.pie[i].value == Percent(CountIn(r.myCourses, r.pie[i].name), r.totalEnrolled)
  {
    var mine := MyEnrolledCourses(courses, p.enrolledCourses);
    var processed := ProcessedCourses(mine, p.completedLessons);
    var inProgress := InProgressCourses(processed);
    var done := CompletedCoursesList(processed);
    TabsPartition(processed);
    var pie := PieData(CategoryCounts(mine), |mine|);
    PieShares(mine);
    Dashboard(mine, processed, inProgress, done, |done|, |p.completedLessons|, |mine|, pie)
  }

  /** Each pie slice is its category's rounded share of the enrolled courses,
      and there are slices exactly when there are enrolled courses. */
  lemma {:induction false} PieShares(mine: seq<Course>)
    ensures var pie := PieData(CategoryCounts(mine), |mine|);
      (|mine| == 0 <==> pie == []) &&
      forall i :: 0 <= i < |pie| ==>
        pie[i].value == Percent(CountIn(mine, pie[i].name), |mine|) && pie[i].value <= 100
  {
    var counts := CategoryCounts(mine);
    var pie := PieData(counts, |mine|);
    CategoryCountsCount(mine);
    CategoryCountsEmpty(mine);
    forall i | 0 <= i < |pie|
      ensures pie[i].value == Percent(CountIn(mine, pie[i].name), |mine|) && pie[i].value <= 100
    {
      assert pie[i].name == counts[i].name;
      assert counts[i].count == CountIn(mine, counts[i].name) <= |mine|;
    }
  }

  /** Rounded shares with a common positive denominator: summed over `k`
      parts, twice the rounded total is within `k` of twice the exact one. */
  lemma {:induction false} RoundedSharesDrift(cs: seq<int>, vs: seq<int>, t: nat)
    requires t > 0 && |cs| == |vs|
    requires forall i :: 0 <= i < |cs| ==> cs[i] >= 0 && vs[i] == Percent(cs[i], t)
    ensures t * (2 * Sum(vs) - |vs|) <= 200 * Sum(cs) <= t * (2 * Sum(vs) + |vs|)
  {
    if |cs| > 0 {
      RoundedSharesDrift(cs[1..], vs[1..], t);
      var v0, rest, k := vs[0], Sum(vs[1..]), |vs| - 1;
      assert t * (2 * v0 - 1) <= 200 * cs[0] < t * (2 * v0 + 1);
      Distribute(t, 2 * v0 - 1, 2 * rest - k);
      Distribute(t, 2 * v0 + 1, 2 * rest + k);
      Distribute(200, cs[0], Sum(cs[1..]));
    }
  }

  lemma {:induction false} Distribute(t: int, a: int, b: int)
    ensures t * (a + b) == t * a + t * b
  {
  }

  /** The pie's rounded shares need not add up to 100, but they miss it by at
      most half a percent per category. */
  lemma {:induction false} PieSharesNearHundred(courses: seq<Course>)
    requires |courses| > 0
    ensures var pie := PieData(CategoryCounts(courses), |courses|);
      200 - |pie| <= 2 * Sum(Values(pie)) <= 200 + |pie|
  {
    CategoryCountsSum(courses);
    PieDrift(CategoryCounts(courses), |courses|);
  }

  /** Pie values over counts that add up to the denominator add up to about 100. */
  lemma {:induction false} PieDrift(counts: seq<CategoryCount>, t: nat)
    requires t > 0 && Sum(Counts(counts)) == t
    ensures 200 - |counts| <= 2 * Sum(Values(PieData(counts, t))) <= 200 + |counts|
  {
    var pie := PieData(counts, t);
    var cs, vs := Counts(counts), Values(pie);
    forall i | 0 <= i < |cs|
      ensures cs[i] >= 0 && vs[i] == Percent(cs[i], t)
    {
      assert cs[i] == counts[i].count && vs[i] == pie[i].value;
    }
    RoundedSharesDrift(cs, vs, t);
    CancelDrift(t, Sum(vs), |vs|);
  }

  lemma {:induction false} CancelDrift(t: nat, v: int, k: int)
    requires t > 0
    requires t * (2 * v - k) <= 200 * t <= t * (2 * v + k)
    ensures 200 - k <= 2 * v <= 200 + k
  {
    assert t * (2 * v - k) < t * 201;
    CancelPositive(t, 2 * v - k, 201);
    assert t * 199 < t * (2 * v + k);
    CancelPositive(t, 199, 2 * v + k);
  }

  /** Enrolling leaves the lesson total alone; completing a lesson raises it by
      one exactly when the lesson is new. */
  lemma {:induction false} LessonsDoneAfterMutations(courses: seq<Course>, p: ProgressStore.Progress, id: string)
    ensures AccountDashboard(courses, ProgressStore.EnrollCourse(p, id).next).totalLessonsDone
            == AccountDashboard(courses, p).totalLessonsDone
    ensures AccountDashboard(courses, ProgressStore.MarkAsCompleted(p, id).next).totalLessonsDone
            == AccountDashboard(courses, p).totalLessonsDone + (if id in p.completedLessons then 0 else 1)
  {
  }

  /** Completing a lesson never lowers the progress of any enrolled course. */
  lemma {:induction false} CompletingNeverLowersProgress(courses: seq<Course>, p: ProgressStore.Progress, id: string)
    ensures var before := AccountDashboard(courses, p);
      var after := AccountDashboard(courses, ProgressStore.MarkAsCompleted(p, id).next);
      |after.processed| == |before.processed| &&
      forall i :: 0 <= i < |before.processed| ==>
        after.processed[i].course == before.processed[i].course &&
        before.processed[i].progress <= after.processed[i].progress
  {
    var q := ProgressStore.MarkAsCompleted(p, id).next;
    var mine := MyEnrolledCourses(courses, p.enrolledCourses);
    assert q.enrolledCourses == p.enrolledCourses;
    forall i | 0 <= i < |mine|
      ensures ProjectCourse(mine[i], p.completedLessons).progress
              <= ProjectCourse(mine[i], q.completedLessons).progress
    {
      ProjectCourseMonotone(mine[i], p.completedLessons, q.completedLessons);
    }
  }

  /** Enrolling in a catalog course puts it on the dashboard. */
  lemma {:induction false} EnrollingShowsCourse(courses: seq<Course>, p: ProgressStore.Progress, i: nat)
    requires i < |courses|
    ensures courses[i] in AccountDashboard(courses, ProgressStore.EnrollCourse(p, courses[i].id).next).myCourses
  {
  }
}
