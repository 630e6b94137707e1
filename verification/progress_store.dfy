/**
 The progress store of app/hook/useProgress.ts: two append-only,
 duplicate-free id lists (completed lessons, enrolled courses), each written
 in full to its own storage key after every change, and read back once when
 the store mounts.

 Storage is an abstract map from key to entry; serialisation is not modelled,
 an entry either holds an id list or is text that does not parse as one.
 */
module ProgressStore {
  import opened Schema
  import opened Seqs

  /** Storage key of the completed-lesson list. */
  const ProgressKey: string := "course_progress"
  /** Storage key of the enrolled-course list. */
  const EnrollmentKey: string := "enrolled_courses"

  /** What one storage key holds. */
  datatype Entry = IdList(ids: seq<string>) | Unparseable

  /** Browser storage: an absent key is a missing record. */
  type Storage = map<string, Entry>

  /** The hook's in-memory state. */
  datatype Progress = Progress(
    completedLessons: seq<string>,
    enrolledCourses: seq<string>,
    isLoaded: bool)

  /** The state before the load effect runs. */
  const Initial: Progress := Progress([], [], false)

  /** One `setItem(key, ids)` call. */
  datatype Write = Write(key: string, ids: seq<string>)

  /** A mutation's new state and the storage write it issues, if any. */
  datatype Step = Step(next: Progress, write: Option<Write>)

  /** The storage after a (possibly absent) write. */
  function Apply(st: Storage, w: Option<Write>): (r: Storage)
    ensures w.None? ==> r == st
    ensures w.Some? ==> r.Keys == st.Keys + {w.value.key} && r[w.value.key] == IdList(w.value.ids)
    ensures w.Some? ==> forall k :: k in st && k != w.value.key ==> r[k] == st[k]
  {
    match w
    case None => st
    case Some(Write(key, ids)) => st[key := IdList(ids)]
  }

  /** The list the load effect obtains from `key`, or `None` when it keeps the current list. */
  function Parsed(st: Storage, key: string): (r: Option<seq<string>>)
    ensures r.Some? <==> key in st && st[key].IdList?
  {
    if key in st && st[key].IdList? then Some(st[key].ids) else None
  }

  /** The load effect: replace each list by its parsed record; a missing or
      corrupt record leaves that list as it is and raises nothing. */
  function Load(p: Progress, st: Storage): (r: Progress)
    ensures r.isLoaded
    ensures Parsed(st, ProgressKey).None? ==> r.completedLessons == p.completedLessons
    ensures Parsed(st, ProgressKey).Some? ==> r.completedLessons == st[ProgressKey].ids
    ensures Parsed(st, EnrollmentKey).None? ==> r.enrolledCourses == p.enrolledCourses
    ensures Parsed(st, EnrollmentKey).Some? ==> r.enrolledCourses == st[EnrollmentKey].ids
  {
    var completed := match Parsed(st, ProgressKey)
      case Some(ids) => ids
      case None => p.completedLessons;
    var enrolled := match Parsed(st, EnrollmentKey)
      case Some(ids) => ids
      case None => p.enrolledCourses;
    Progress(completed, enrolled, true)
  }

  /** Mounting the hook: the load effect applied to the initial state. */
  function Mount(st: Storage): (r: Progress)
    ensures r.isLoaded
    ensures Parsed(st, ProgressKey).None? ==> r.completedLessons == []
    ensures Parsed(st, EnrollmentKey).None? ==> r.enrolledCourses == []
    ensures Parsed(st, ProgressKey).Some? ==> r.completedLessons == Parsed(st, ProgressKey).value
    ensures Parsed(st, EnrollmentKey).Some? ==> r.enrolledCourses == Parsed(st, EnrollmentKey).value
  {
    Load(Initial, st)
  }

  /** The list after appending `id` unless it is already there. */
  function AppendIfAbsent(ids: seq<string>, id: string): (r: seq<string>)
    ensures id in r
    ensures |r| == if id in ids then |ids| else |ids| + 1
    ensures r[..|ids|] == ids
    ensures forall x :: x in r <==> x in ids || x == id
    ensures NoDup(ids) ==> NoDup(r)
  {
    if id in ids then ids else ids + [id]
  }

  /** `markAsCompleted(lessonId)`. */
  function MarkAsCompleted(p: Progress, lessonId: string): (r: Step)
    ensures r.next.completedLessons == AppendIfAbsent(p.completedLessons, lessonId)
    ensures r.next.enrolledCourses == p.enrolledCourses && r.next.isLoaded == p.isLoaded
    ensures r.write.Some? <==> lessonId !in p.completedLessons
    ensures r.write.Some? ==> r.write.value == Write(ProgressKey, r.next.completedLessons)
  {
    if lessonId !in p.completedLessons then
      var updated := p.completedLessons + [lessonId];
      Step(p.(completedLessons := updated), Some(Write(ProgressKey, updated)))
    else
      Step(p, None)
  }

  /** `enrollCourse(courseId)`. */
  function EnrollCourse(p: Progress, courseId: string): (r: Step)
    ensures r.next.enrolledCourses == AppendIfAbsent(p.enrolledCourses, courseId)
    ensures r.next.completedLessons == p.completedLessons && r.next.isLoaded == p.isLoaded
    ensures r.write.Some? <==> courseId !in p.enrolledCourses
    ensures r.write.Some? ==> r.write.value == Write(EnrollmentKey, r.next.enrolledCourses)
  {
    if courseId !in p.enrolledCourses then
      var updated := p.enrolledCourses + [courseId];
      Step(p.(enrolledCourses := updated), Some(Write(EnrollmentKey, updated)))
    else
      Step(p, None)
  }

  /** A user action that reaches the store. */
  datatype Action = Complete(lessonId: string) | Enroll(courseId: string)

  function Perform(p: Progress, a: Action): (r: Step) {
    match a
    case Complete(id) => MarkAsCompleted(p, id)
    case Enroll(id) => EnrollCourse(p, id)
  }

  /** Memory and storage after performing `actions` one after another. */
  function Run(p: Progress, st: Storage, actions: seq<Action>): (r: (Progress, Storage))
    decreases |actions|
  {
    if |actions| == 0 then (p, st)
    else
      var s := Perform(p, actions[0]);
      Run(s.next, Apply(st, s.write), actions[1..])
  }

  /** Completing a lesson twice leaves the store as completing it once, and the
      second call writes nothing. */
  lemma {:induction false} MarkAsCompletedIdempotent(p: Progress, lessonId: string)
    ensures MarkAsCompleted(MarkAsCompleted(p, lessonId).next, lessonId) ==
            Step(MarkAsCompleted(p, lessonId).next, None)
  {
  }

  /** Enrolling twice leaves the store as enrolling once, and the second call
      writes nothing. */
  lemma {:induction false} EnrollCourseIdempotent(p: Progress, courseId: string)
    ensures EnrollCourse(EnrollCourse(p, courseId).next, courseId) ==
            Step(EnrollCourse(p, courseId).next, None)
  {
  }

  /** Both lists are duplicate-free. */
  predicate Deduplicated(p: Progress) {
    NoDup(p.completedLessons) && NoDup(p.enrolledCourses)
  }

  /** The lists of `before` are prefixes of those of `after`: nothing removed, nothing reordered. */
  predicate Extends(before: Progress, after: Progress) {
    |before.completedLessons| <= |after.completedLessons| &&
    after.completedLessons[..|before.completedLessons|] == before.completedLessons &&
    |before.enrolledCourses| <= |after.enrolledCourses| &&
    after.enrolledCourses[..|before.enrolledCourses|] == before.enrolledCourses
  }

  /** The list a mount reads from `key`: its id list, or empty. */
  function Stored(st: Storage, key: string): (r: seq<string>) {
    match Parsed(st, key)
    case Some(ids) => ids
    case None => []
  }

  /** Memory holds exactly what a mount would read back from storage. */
  predicate Synced(p: Progress, st: Storage) {
    p.completedLessons == Stored(st, ProgressKey) &&
    p.enrolledCourses == Stored(st, EnrollmentKey)
  }

  /** Any run of actions keeps the lists duplicate-free and only ever appends. */
  lemma {:induction false} RunAppendOnly(p: Progress, st: Storage, actions: seq<Action>)
    requires Deduplicated(p)
    ensures Deduplicated(Run(p, st, actions).0)
    ensures Extends(p, Run(p, st, actions).0)
    decreases |actions|
  {
    if |actions| > 0 {
      var s := Perform(p, actions[0]);
      RunAppendOnly(s.next, Apply(st, s.write), actions[1..]);
      var q := Run(p, st, actions).0;
      assert q.completedLessons[..|s.next.completedLessons|] == s.next.completedLessons;
      assert q.completedLessons[..|p.completedLessons|]
          == s.next.completedLessons[..|p.completedLessons|];
      assert q.enrolledCourses[..|s.next.enrolledCourses|] == s.next.enrolledCourses;
      assert q.enrolledCourses[..|p.enrolledCourses|]
          == s.next.enrolledCourses[..|p.enrolledCourses|];
    }
  }

  /** Any run of actions keeps memory and storage in agreement. */
  lemma {:induction false} RunKeepsSynced(p: Progress, st: Storage, actions: seq<Action>)
    requires Synced(p, st)
    ensures Synced(Run(p, st, actions).0, Run(p, st, actions).1)
    decreases |actions|
  {
    if |actions| > 0 {
      var s := Perform(p, actions[0]);
      assert Synced(s.next, Apply(st, s.write));
      RunKeepsSynced(s.next, Apply(st, s.write), actions[1..]);
    }
  }

  /**
   Persistence round trip: mount from any storage, perform any actions, and a
   fresh mount from the resulting storage reproduces the in-memory lists.
   */
  lemma {:induction false} ReloadRestoresState(st: Storage, actions: seq<Action>)
    ensures Mount(Run(Mount(st), st, actions).1) == Run(Mount(st), st, actions).0
  {
    var p := Mount(st);
    assert Synced(p, st);
    RunKeepsSynced(p, st, actions);
    RunLoaded(p, st, actions);
  }

  /** Actions do not touch `isLoaded`. */
  lemma {:induction false} RunLoaded(p: Progress, st: Storage, actions: seq<Action>)
    ensures Run(p, st, actions).0.isLoaded == p.isLoaded
    decreases |actions|
  {
    if |actions| > 0 {
      var s := Perform(p, actions[0]);
      RunLoaded(s.next, Apply(st, s.write), actions[1..]);
    }
  }
}
