# SkillFrameX progress engine — a Dafny model

SkillFrameX is a Next.js course catalog. Apart from rendering, its logic is a
small progress engine, and this project models that engine and proves
properties about it:

- **Progress store** (`useProgress`). It holds two append-only, duplicate-free id
  lists: completed lessons and enrolled courses. Each change writes the whole
  list to its storage key (`course_progress`, `enrolled_courses`). The lists are
  read back once on mount. Storage is an abstract map from key to entry. An
  entry is an id list or an unparseable record.
- **Progress projection**. For each course it computes the lesson total, the
  number of completed lessons and a rounded percent. The account dashboard
  derives from these its "Continue Learning" / "Completed Courses" tabs, the
  certificate and lesson totals, the category "Interests" pie and the pie's
  conic-gradient segments. The home page adds the same figures to every
  enrolled course.
- **Catalog filter** on the home page: a category button plus a free-text
  search, and the first five courses featured in the hero slider.
- **Hero slider**: the slide index under previous, next and dot clicks, with
  wrap-around.
- **Course card**: what a card shows for a course with or without progress.

Files, one module each: `schema.dfy` (Lesson, Course, Option), `seqs.dfy`
(filter, subsequence, sums, first-seen deduplication), `text.dfy` (ASCII
lower-casing, substring search), `progress_store.dfy`, `projection.dfy`
(percent and completed count, which the home and account pages compute the
same way), `course_card.dfy`, `home.dfy`, `account.dfy`, `hero_slider.dfy`.

The percent `Math.round(c / t * 100)` is modelled as integer round-half-up,
`(200c + t) / (2t)`, and as 0 when `t == 0`. Its contract describes rounding
itself: `100c/t` lies in `[r - 1/2, r + 1/2)`.

## Model

| member | source | states |
|---|---|---|
| ProgressStore.Load | app/hook/useProgress.ts:20-44 | loading always sets `isLoaded`; a key holding an id list replaces that list; a missing or unparseable key leaves the list as it was, and nothing is raised |
| ProgressStore.Apply | app/hook/useProgress.ts:54 | a write stores the id list under its key, leaves every other key as it was, and without a write storage is unchanged (the same `setItem` is at line 64) |
| ProgressStore.Mount | app/hook/useProgress.ts:11-44 | on mount, a key holding an id list gives exactly that list, a missing or unparseable key yields an empty list, and the store is loaded |
| ProgressStore.AppendIfAbsent | app/hook/useProgress.ts:50-51 | the id ends up in the list; the old list is kept as a prefix; the length grows by one exactly when the id was absent; the element set gains exactly the id; no duplicates are introduced |
| ProgressStore.MarkAsCompleted | app/hook/useProgress.ts:49-56 | the completed list is appended to only if the id is absent; enrollments and `isLoaded` are untouched; a write happens exactly when the state changes, and it stores the new list under `course_progress` |
| ProgressStore.EnrollCourse | app/hook/useProgress.ts:59-66 | the same append-if-absent rule for enrollments under `enrolled_courses`; completed lessons are untouched; a no-op writes nothing |
| ProgressStore.MarkAsCompletedIdempotent | app/hook/useProgress.ts:50-55 | completing a lesson twice gives the state of completing it once, and the second call writes nothing |
| ProgressStore.EnrollCourseIdempotent | app/hook/useProgress.ts:60-65 | enrolling twice gives the state of enrolling once, and the second call writes nothing |
| ProgressStore.RunAppendOnly | app/hook/useProgress.ts:49-66 | after any sequence of mutations both lists stay duplicate-free, and the earlier lists are prefixes of the new ones (nothing removed or reordered) |
| ProgressStore.RunKeepsSynced | app/hook/useProgress.ts:49-66 | after any sequence of mutations, memory equals what a mount would read back from storage |
| ProgressStore.ReloadRestoresState | app/hook/useProgress.ts:20-66 | mount from any storage, then perform any mutations: a fresh mount from the resulting storage reproduces the in-memory lists |
| Projection.Percent | app/account/page.tsx:41 | 0 for an empty course; otherwise the nearest integer to 100·c/t, with halves rounded up; at most 100 when c ≤ t |
| Projection.PercentMonotone | app/account/page.tsx:41 | more completed lessons never give a lower percent |
| Projection.PercentFull | app/account/page.tsx:41 | all lessons of a non-empty course completed gives exactly 100 |
| Projection.PercentHundredMeansAll | app/account/page.tsx:41-47 | for fewer than 200 lessons, 100 percent means every lesson is completed |
| Projection.PercentRoundsUpAt200 | app/account/page.tsx:41-47 | the 200-lesson bound is tight: 199 of 200 already shows 100 |
| Projection.CompletedCount | app/account/page.tsx:40 | the completed count never exceeds the course's lesson count |
| Projection.ProjectCourse | app/account/page.tsx:38-44 | `totalLessons` is the playlist length; `completedCount` is the number of lessons whose id is completed, at most `totalLessons`; `progress` lies in 0..100, is 0 for an empty course, and is the rounded ratio otherwise |
| Projection.CompletedCountExtremes | app/account/page.tsx:40 | the count equals the lesson total iff every lesson id is completed, and is 0 iff none is |
| Projection.CompletedCountIgnoresOtherIds | app/account/page.tsx:40 | completed ids of lessons outside the course do not change its count |
| Projection.CompletedCountMonotone | app/account/page.tsx:40 | a larger completed set never gives a smaller count |
| Projection.ProjectCourseComplete | app/account/page.tsx:41-47 | a fully completed non-empty course is at 100; under 200 lessons, 100 implies fully completed |
| Projection.ProjectCourseHundredIff | app/account/page.tsx:41-47 | under 200 lessons, a non-empty course is at 100 percent (and so in the completed tab) exactly when every one of its lesson ids is completed |
| Projection.ProjectCourseMonotone | app/account/page.tsx:38-44 | a course's progress never drops when more lessons are completed |
| Account.MyEnrolledCourses | app/account/page.tsx:35 | the enrolled courses are the order-preserving subsequence of the catalog whose ids are enrolled, and no such course is missing |
| Seqs.Filter | app/account/page.tsx:35 | `Array.prototype.filter`: the result is an order-preserving subsequence of the input, no longer than it; every kept element is in the input and satisfies the predicate; every input element satisfying it is kept |
| Seqs.FilterMultiplicity | app/account/page.tsx:35 | filtering keeps every copy of a kept element: each kept value occurs as often as in the input, every dropped value not at all |
| Account.EnrolledIgnoresUnknownIds | app/account/page.tsx:35 | enrolled ids that match no catalog course change nothing |
| Account.ProcessedCourses | app/account/page.tsx:38-44 | one processed entry per enrolled course, in order; entry `i` is that course's projection (lesson total, completed count, rounded percent), so its progress is at most 100 and its count at most its lesson total |
| Account.InProgressCourses | app/account/page.tsx:46 | an order-preserving subsequence of the processed courses, all below 100 |
| Account.CompletedCoursesList | app/account/page.tsx:47 | an order-preserving subsequence of the processed courses, all at 100 |
| Account.TabsPartition | app/account/page.tsx:46-48 | the two tabs split the processed courses as multisets: every course lands in exactly one tab |
| Account.Tally | app/account/page.tsx:54 | one `forEach` step keeps the record's keys when the category is already a key, and otherwise appends the category as the last key |
| Account.TallyCounts | app/account/page.tsx:53-55 | on distinct keys, one step adds one to the category's own count and leaves every other count alone; a new category is appended with count 1 |
| Account.TallySum | app/account/page.tsx:54 | one step adds exactly one to the total of the counts |
| Account.CategoryCounts | app/account/page.tsx:52-55 | the category keys are the enrolled categories, distinct, in first-seen order |
| Account.CategoryCountsCount | app/account/page.tsx:52-55 | each category's count is the number of enrolled courses in that category |
| Account.CategoryCountsSum | app/account/page.tsx:52-56 | the counts add up to `totalEnrolled` |
| Account.CategoryCountsEmpty | app/account/page.tsx:52-56 | there are no category counts exactly when nothing is enrolled, so the pie divides by nothing |
| Account.PieData | app/account/page.tsx:57-62 | one slice per category in key order; slice `i` has the category's name, colour `pieColors[i mod 5]`, and the value `Percent(count, totalEnrolled)`, which is in 0..100 when the count is at most the total |
| Account.PieShares | app/account/page.tsx:52-62 | on the dashboard each slice's value is the rounded share of enrolled courses in its category, at most 100, and there are slices exactly when something is enrolled |
| Account.RoundedSharesDrift | app/account/page.tsx:58-62 | rounding k shares over one denominator moves their total by at most k/2 from the exact total |
| Account.PieSharesNearHundred | app/account/page.tsx:58-62 | the pie values need not add up to 100, but miss it by at most half a percent per category |
| Account.ConicStops | app/account/page.tsx:169-172 | one gradient segment per slice, in the slice's colour, spanning exactly the slice's value |
| Account.ConicStopsContiguous | app/account/page.tsx:169-172 | segment 0 starts at 0; each segment starts where the previous one ends; the last one ends at the sum of the values |
| Account.ConicStopsRunning | app/account/page.tsx:169-172 | one pass with a running offset gives the same stops as the per-slice `slice(0, i).reduce` |
| Account.AccountDashboard | app/account/page.tsx:35-62 | the dashboard lists exactly the enrolled catalog courses, each with its own projection; the "Continue Learning" tab holds the courses below 100 and the "Completed Courses" tab those at 100; the tab sizes add up to the enrolled count; the pie is `PieData` of the category counts of those courses, so it has one slice per distinct enrolled category, in first-seen order; certificates count the completed tab; lessons done is the completed-list length; the pie is empty iff nothing is enrolled; each pie value is the rounded share of the enrolled courses in that slice's category, at most 100 |
| Account.LessonsDoneAfterMutations | app/account/page.tsx:49 | enrolling leaves "lessons done" unchanged; completing a lesson raises it by one exactly when the lesson is new |
| Account.CompletingNeverLowersProgress | app/account/page.tsx:38-44 | after completing a lesson the dashboard lists the same courses, and none has lower progress |
| Account.EnrollingShowsCourse | app/account/page.tsx:35 | a catalog course appears on the dashboard once enrolled |
| Home.CoursesWithProgress | app/page.tsx:55-67 | same length and course order as the catalog; progress fields exactly on enrolled courses, with the account page's percent (0..100) and the playlist length |
| Home.SearchTerm | app/page.tsx:19 | a missing parameter gives the empty term; otherwise the term is the lower-cased parameter (the `|| ""` fallback changes nothing, because an empty result is already empty), and lower-casing it again changes nothing |
| Home.FilteredCourses | app/page.tsx:70-82 | an order-preserving subsequence holding exactly the courses that match both category and search |
| Home.FilterAllShowsEverything | app/page.tsx:71-75 | with "All" and an empty term, every course is shown, in order |
| Home.FilterByCategoryOnly | app/page.tsx:71 | with an empty search term, any other selected category keeps exactly the courses whose category is that exact string |
| Home.MatchesSearchIff | app/page.tsx:74-79 | a non-empty term matches iff it occurs in the lower-cased name, description, category or some lesson title |
| Home.FeaturedCourses | app/page.tsx:85 | the featured courses are the first min(5, n) catalog courses |
| Home.LoadCatalog | app/page.tsx:30-50 | after a fetch the buttons are "All" followed by the fetched categories; a missing list becomes empty; a failed fetch leaves both lists empty |
| Home.HeroGetsSlides | app/page.tsx:93 | whenever the hero slider is shown it has between one and five slides, and from its first slide any sequence of clicks keeps the index on one of them |
| Home.HomeCardAgreesWithProjection | app/page.tsx:55-66 | a home card shows progress iff its course is enrolled, and then the account page's percent; otherwise 0 with the description; the lesson count is the playlist length |
| Text.ToLower | app/page.tsx:19 | the result has the input's length and holds each character lower-cased (ASCII capitals only) |
| Text.Includes | app/page.tsx:76-79 | the empty term is found in every string, and a term longer than the string is never found |
| Text.IncludesIff | app/page.tsx:76-79 | `includes` finds a match exactly when the term occurs at some position |
| CourseCard.Render | app/components/CourseCard.tsx:18-26 | progress is shown iff the field is present; the shown value is the field or 0; the lesson count is `totalLessons` when non-zero, else the playlist length; the description shows iff there is no progress; the bar width is the progress; the link is `/course/` + id |
| HeroSlider.PrevSlide | app/components/HeroSlider.tsx:21-25 | on a valid index, previous stays in range and moves one slide back, modulo n |
| HeroSlider.NextSlide | app/components/HeroSlider.tsx:28-34 | with no slides, nothing changes; on a valid index, next stays in range and moves one slide forward, modulo n |
| HeroSlider.RunStaysInRange | app/components/HeroSlider.tsx:21-33 | from a valid index, any sequence of prev, next and rendered-dot clicks keeps the index in [0, n) |
| HeroSlider.PrevNextInverse | app/components/HeroSlider.tsx:21-33 | prev undoes next and next undoes prev |
| HeroSlider.AdvanceIsRotation | app/components/HeroSlider.tsx:28-34 | k presses of next move k slides forward, modulo n |
| HeroSlider.FullCycle | app/components/HeroSlider.tsx:30-33 | n presses of next return to the starting slide |
| HeroSlider.OffsetShowsASlide | app/components/HeroSlider.tsx:57 | the strip offset is always a whole slide that exists: a multiple of 100 in [0, 100(n-1)] |

## Left out

- Serialisation: `JSON.parse`/`JSON.stringify` are not modelled. A storage entry is an id list or unparseable. A record that parses to something other than a string list is not modelled.
- ProgressStore.Load: the empty string is falsy in `if (savedProgress)`, so the source skips it. The model treats it like any unparseable record, with the same outcome.
- Write failures: a throwing `localStorage.setItem` (quota) is not modelled. The model assumes each write succeeds.
- React semantics: state batching, stale closures when two mutations happen in one render, effect timing and Suspense are not modelled. Store operations are sequential functions on a record.
- Projection.Percent: `Math.round` on floating-point division is idealised as exact integer round-half-up. The two differ on ordinary inputs whose exact share ends in .5. In double precision, 23 of 40 lessons is 57.49999999999999, so the page shows 57 where the model gives 58. Likewise 29 of 200 shows 14 where the model gives 15.
- Text.ToLower: `toLowerCase` is restricted to ASCII letters. Unicode case mapping is not modelled.
- Account.CategoryCounts: the record is modelled as a plain insertion-ordered map, and keys come out in first-seen order. Two JavaScript object behaviours are not modelled. First, integer-like keys are listed first, in numeric order. Second, `{}` inherits from `Object.prototype`, so category names are assumed not to be its members. For `"constructor"`, `"toString"` or `"valueOf"`, `categoryCounts[cat] || 0` reads the inherited function and that slice's value becomes NaN. For `"__proto__"` the assignment is ignored, so the counts no longer add up to `totalEnrolled`.
- HeroSlider.PrevSlide: only the in-range behaviour is stated. With no slides the source computes -1, but the slider renders nothing then, so the button cannot be pressed.
- The 5-second `setInterval` auto-advance (app/components/HeroSlider.tsx:38-45): only the `nextSlide` transition it calls is modelled.
- Home.CoursesWithProgress: `coursesDtl` is always present. The `?.` fallbacks for a missing playlist are not modelled.
- Loading gates and rendering: spinners, empty states and the static SVG activity chart (app/account/page.tsx:139-158) are presentation only.
- app/service/api.ts (timer-delayed reads of a bundled JSON file), mock-api/courses-mock-api-main/server.js (a network server), app/components/NavBar.tsx, app/components/Footer.tsx, app/blog/page.tsx and app/layout.tsx are I/O or rendering.
- The course detail, lesson and certificate pages are not part of this model. They hold the enrollment gate, the 90% playback trigger and the certificate redirect. The certificate page gates on progress alone (app/certificate/[courseId]/page.tsx:37-44), not on enrollment. The course overview and certificate pages compute progress as `Projection.ProjectCourse` does. The lesson page does not (app/course/[id]/lesson/[lessonId]/page.tsx:223-230): it counts the completed ids that match some lesson rather than the lessons whose id is completed, and it has no guard for a course without lessons.
- The store keeps arrays searched with `includes`, not sets. The model follows the code: duplicate-free sequences with linear membership.
