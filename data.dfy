/**
 * The business-data and session collaborators (db.py), reduced to the values
 * the dialogue logic reads and writes: the FAQ rows, the schedule and deadline
 * tables as partial maps, and the per-user session record.
 */
module Data {
  import opened Wrappers

  /** One row of the `faqs` table. */
  datatype FaqRow = FaqRow(id: int, question: string, answer: string, tags: Option<string>)

  /** The newest schedule row of a course: its title and details. */
  datatype ScheduleInfo = ScheduleInfo(title: string, details: string)

  /** The newest deadline row of a (course, assignment) pair. */
  datatype DeadlineInfo = DeadlineInfo(dueAt: string, submitTo: string)

  /** The business data: FAQ rows in id order and the two lookup tables. */
  datatype Db = Db(
    faqs: seq<FaqRow>,
    schedules: map<string, ScheduleInfo>,
    deadlines: map<(string, string), DeadlineInfo>)

  /** The per-user conversation context (`ctx`). */
  datatype Session = Session(
    pendingIntent: Option<string>,
    slots: map<string, string>,
    lastCourse: Option<string>,
    lastAssignment: Option<string>)

  /** The context `get_session` creates and `reset_session` writes. */
  const DefaultSession := Session(None, map[], None, None)

  /** The entity dictionary of one turn, with its two keys. */
  datatype Entities = Entities(course: Option<string>, assignment: Option<string>)

  /** Python truthiness of an optional string: present and not empty. */
  predicate Present(v: Option<string>) {
    v.Some? && v.value != ""
  }

  /** `get_schedule_by_course`: a missing course (None) matches no row. */
  function LookupSchedule(db: Db, course: Option<string>): Option<ScheduleInfo>
  {
    if course.Some? && course.value in db.schedules then Some(db.schedules[course.value]) else None
  }

  /** `get_deadline`: a missing course or assignment (None) matches no row. */
  function LookupDeadline(db: Db, course: Option<string>, assignment: Option<string>): Option<DeadlineInfo>
  {
    if course.Some? && assignment.Some? && (course.value, assignment.value) in db.deadlines
    then Some(db.deadlines[(course.value, assignment.value)])
    else None
  }
}
