/**
 The catalog home page (app/page.tsx): the per-course progress overlay, the
 category and search filter, the featured slice and the category buttons.
 */
module Home {
  import opened Schema
  import opened Seqs
  import opened Text
  import opened Projection
  import opened CourseCard
  import HeroSlider

  /** The category button that disables the category filter. */
  const AllCategories: string := "All"
  /** How many catalog courses the hero slider features. */
  const FeaturedCount: nat := 5

  /** One course of `coursesWithProgress`: an enrolled course gains
      `progress` and `totalLessons`, any other course is passed on as is. */
  function WithProgress(c: Course, completed: seq<string>, enrolled: seq<string>): (r: CardCourse) {
    if c.id in enrolled then
      var total := |c.coursesDtl|;
      CardCourse(c, Some(Percent(CompletedCount(c, completed), total)), Some(total))
    else
      CardCourse(c, None, None)
  }

  /** `courses.map(...)` producing `coursesWithProgress`. */
  function CoursesWithProgress(courses: seq<Course>, completed: seq<string>, enrolled: seq<string>)
    : (r: seq<CardCourse>)
    ensures |r| == |courses|
    ensures forall i :: 0 <= i < |r| ==> r[i].course == courses[i]
    ensures forall i :: 0 <= i < |r| ==> (r[i].progress.Some? <==> courses[i].id in enrolled)
    ensures forall i :: 0 <= i < |r| ==> (r[i].totalLessons.Some? <==> courses[i].id in enrolled)
    ensures forall i :: 0 <= i < |r| && r[i].progress.Some? ==>
      0 <= r[i].progress.value <= 100 &&
      r[i].progress.value == ProjectCourse(courses[i], completed).progress &&
      r[i].totalLessons.value == |courses[i].coursesDtl|
  {
    seq(|courses|, i requires 0 <= i < |courses| => WithProgress(courses[i], completed, enrolled))
  }

  /** The search term: the lower-cased `search` URL parameter, or empty when absent. */
  function SearchTerm(param: Option<string>): (r: string)
    ensures param.None? ==> r == ""
    ensures param.Some? ==> r == ToLower(param.value) && ToLower(r) == r
  {
    match param
    case Some(s) =>
      ToLowerIdempotent(s);
      var lowered := ToLower(s);
      if lowered == "" then "" else lowered
    case None => ""
  }

  /** The category half of the filter. */
  predicate MatchesCategory(c: CardCourse, selected: string) {
    selected == AllCategories || c.course.category == selected
  }

  /** Some lesson title of `c`, lower-cased, contains `term`. */
  predicate SomeLessonMatches(c: Course, term: string) {
    exists i :: 0 <= i < |c.coursesDtl| && Includes(ToLower(c.coursesDtl[i].title), term)
  }

  /** The search half of the filter. */
  predicate MatchesSearch(c: CardCourse, term: string) {
    term == "" ||
    Includes(ToLower(c.course.name), term) ||
    Includes(ToLower(c.course.description), term) ||
    Includes(ToLower(c.course.category), term) ||
    SomeLessonMatches(c.course, term)
  }

  predicate Matches(c: CardCourse, selected: string, term: string) {
    MatchesCategory(c, selected) && MatchesSearch(c, term)
  }

  /** `filteredCourses`: the courses passing both halves of the filter, in order. */
  function FilteredCourses(courses: seq<CardCourse>, selected: string, term: string)
    : (r: seq<CardCourse>)
    ensures SubseqOf(r, courses)
    ensures forall i :: 0 <= i < |r| ==> r[i] in courses && Matches(r[i], selected, term)
    ensures forall i :: 0 <= i < |courses| && Matches(courses[i], selected, term) ==> courses[i] in r
  {
    Filter(courses, (c: CardCourse) => Matches(c, selected, term))
  }

  /** With "All" selected and no search term, nothing is filtered out. */
  lemma {:induction false} FilterAllShowsEverything(courses: seq<CardCourse>)
    ensures FilteredCourses(courses, AllCategories, "") == courses
  {
    FilterKeepsAll(courses, (c: CardCourse) => Matches(c, AllCategories, ""));
  }

  /** Any other selection keeps exactly the courses of that category. */
  lemma {:induction false} FilterByCategoryOnly(courses: seq<CardCourse>, selected: string)
    requires selected != AllCategories
    ensures forall c :: c in FilteredCourses(courses, selected, "") <==>
      c in courses && c.course.category == selected
  {
  }

  /** A lower-cased field contains `term` somewhere. */
  ghost predicate FieldHas(field: string, term: string) {
    exists i :: OccursAt(ToLower(field), term, i)
  }

  /** A non-empty term matches exactly when it occurs in the lower-cased name,
      description, category or some lesson title. */
  lemma {:induction false} MatchesSearchIff(c: CardCourse, term: string)
    requires term != ""
    ensures MatchesSearch(c, term) <==>
      FieldHas(c.course.name, term) ||
      FieldHas(c.course.description, term) ||
      FieldHas(c.course.category, term) ||
      exists i :: 0 <= i < |c.course.coursesDtl| && FieldHas(c.course.coursesDtl[i].title, term)
  {
    IncludesIff(ToLower(c.course.name), term);
    IncludesIff(ToLower(c.course.description), term);
    IncludesIff(ToLower(c.course.category), term);
    forall i | 0 <= i < |c.course.coursesDtl|
      ensures Includes(ToLower(c.course.coursesDtl[i].title), term) <==>
              FieldHas(c.course.coursesDtl[i].title, term)
    {
      IncludesIff(ToLower(c.course.coursesDtl[i].title), term);
    }
  }

  /** `courses.slice(0, 5)`. */
  function FeaturedCourses(courses: seq<Course>): (r: seq<Course>)
    ensures |r| == if |courses| < FeaturedCount then |courses| else FeaturedCount
    ensures forall i :: 0 <= i < |r| ==> r[i] == courses[i]
  {
    if |courses| < FeaturedCount then courses else courses[..FeaturedCount]
  }

  /** The result of the page's one combined fetch. */
  datatype Fetch =
    | Fetched(courses: Option<seq<Course>>, categories: Option<seq<string>>)
    | FetchFailed

  /** The page's catalog state once loading has finished. */
  datatype Catalog = Catalog(courses: seq<Course>, categories: seq<string>)

  /** The fetch effect: a missing list becomes empty, the category buttons get
      "All" in front, and a failed fetch leaves both lists at their initial empty value. */
  function LoadCatalog(f: Fetch): (r: Catalog)
    ensures f.FetchFailed? ==> r == Catalog([], [])
    ensures f.Fetched? ==> |r.categories| >= 1 && r.categories[0] == AllCategories
    ensures f.Fetched? && f.categories.Some? ==> r.categories[1..] == f.categories.value
    ensures f.Fetched? && f.categories.None? ==> r.categories == [AllCategories]
    ensures f.Fetched? ==> r.courses == (if f.courses.Some? then f.courses.value else [])
  {
    match f
    case Fetched(cs, cats) =>
      var courses := match cs case Some(v) => v case None => [];
      var categories := match cats case Some(v) => v case None => [];
      Catalog(courses, [AllCategories] + categories)
    case FetchFailed => Catalog([], [])
  }

  /** The hero slider is shown once loading is over, with featured courses and no search. */
  predicate ShowHero(loading: bool, featured: seq<Course>, term: string) {
    !loading && |featured| > 0 && term == ""
  }

  /** Whenever the hero slider is shown it holds between one and five slides,
      and its index, starting on the first slide, names one of them after any
      clicks. */
  lemma {:induction false} HeroGetsSlides(courses: seq<Course>, loading: bool, term: string)
    requires ShowHero(loading, FeaturedCourses(courses), term)
    ensures 1 <= |FeaturedCourses(courses)| <= FeaturedCount
    ensures |courses| > 0
    ensures var n := |FeaturedCourses(courses)|;
      forall events: seq<HeroSlider.Event> ::
        (forall k :: 0 <= k < |events| ==> HeroSlider.Clickable(n, events[k])) ==>
        0 <= HeroSlider.Run(n, 0, events) < n
  {
    var n := |FeaturedCourses(courses)|;
    forall events: seq<HeroSlider.Event> |
      forall k :: 0 <= k < |events| ==> HeroSlider.Clickable(n, events[k])
      ensures 0 <= HeroSlider.Run(n, 0, events) < n
    {
      HeroSlider.RunStaysInRange(n, 0, events);
    }
  }

  /** A card of the home page shows progress exactly for enrolled courses, with
      the account page's percent, and always counts the course's own lessons. */
  lemma {:induction false} HomeCardAgreesWithProjection(courses: seq<Course>, completed: seq<string>,
                                     enrolled: seq<string>, i: nat)
    requires i < |courses|
    ensures var v := Render(CoursesWithProgress(courses, completed, enrolled)[i]);
      && (v.hasProgress <==> courses[i].id in enrolled)
      && (v.hasProgress ==> v.progress == ProjectCourse(courses[i], completed).progress)
      && (!v.hasProgress ==> v.progress == 0 && v.showDescription)
      && v.lessonCount == |courses[i].coursesDtl|
  {
  }
}
