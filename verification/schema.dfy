/**
 The catalog records the progress engine reads (types/schema.ts).
 Lessons and courses are immutable from the engine's point of view.
 */
module Schema {

  /** An optional value; models a TypeScript field typed `T | undefined`. */
  datatype Option<+T> = None | Some(value: T)

  /** One lesson of a course playlist. */
  datatype Lesson = Lesson(id: string, title: string, duration: string)

  /** A catalog course; `coursesDtl` is its ordered lesson playlist. */
  datatype Course = Course(
    id: string,
    name: string,
    description: string,
    category: string,
    image: string,
    coursesDtl: seq<Lesson>)
}
