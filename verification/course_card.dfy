/**
 The course card (app/components/CourseCard.tsx): what it shows for a course
 that may carry progress fields.
 */
module CourseCard {
  import opened Schema

  /** The card's props: a course, optionally with `progress` and `totalLessons`. */
  datatype CardCourse = CardCourse(course: Course, progress: Option<int>, totalLessons: Option<int>)

  /** The values the card renders. */
  datatype CardView = CardView(
    hasProgress: bool,
    progress: int,
    lessonCount: int,
    showDescription: bool,
    barWidth: int,
    href: string)

  const CoursePath: string := "/course/"

  /** Renders a card; `x || y` falls back to `y` when `x` is missing or zero,
      so `progress || 0` is the progress when present and 0 otherwise. */
  function Render(c: CardCourse): (r: CardView)
    ensures r.hasProgress <==> c.progress.Some?
    ensures r.progress == (if c.progress.Some? then c.progress.value else 0)
    ensures c.totalLessons.Some? && c.totalLessons.value != 0 ==> r.lessonCount == c.totalLessons.value
    ensures !(c.totalLessons.Some? && c.totalLessons.value != 0) ==> r.lessonCount == |c.course.coursesDtl|
    ensures r.showDescription <==> !r.hasProgress
    ensures r.barWidth == r.progress
    ensures |r.href| >= |CoursePath| && r.href[..|CoursePath|] == CoursePath
    ensures r.href[|CoursePath|..] == c.course.id
  {
    var hasProgress := c.progress.Some?;
    var progress := match c.progress
      case Some(v) => v
      case None => 0;
    var lessonCount :=
      if c.totalLessons.Some? && c.totalLessons.value != 0 then c.totalLessons.value
      else if |c.course.coursesDtl| != 0 then |c.course.coursesDtl|
      else 0;
    CardView(hasProgress, progress, lessonCount, !hasProgress, progress, CoursePath + c.course.id)
  }
}
