/**
 * Slot resolution and intent execution (dialog.py): merging the entities of a
 * turn with the session's memory and partial slots, deciding which required
 * slots are still missing and how to ask for them, and rendering the reply of
 * a fully resolved `schedule` or `deadline` request.
 */
module Dialog {
  import opened Wrappers
  import opened Data

  const CourseSlot := "course"
  const AssignmentSlot := "assignment"

  const AskCourse := "Please tell me the course code (e.g., 158.780)."
  const AskAssignment := "Please tell me the assignment name (e.g., A1)."
  const AskBoth := "Please provide the course code (e.g., 158.780) and assignment (e.g., A1)."
  const Stall := "Let me double-check that."

  /** `REQUIRED_SLOTS.get(intent, [])`: the slots an intent needs, in order. */
  function RequiredSlots(intent: string): seq<string> {
    if intent == "schedule" then [CourseSlot]
    else if intent == "deadline" then [CourseSlot, AssignmentSlot]
    else []
  }

  /** `slots.get(name)` is truthy. */
  predicate Filled(slots: map<string, string>, name: string) {
    name in slots && slots[name] != ""
  }

  /** `slots.get(name)`. */
  function Get(slots: map<string, string>, name: string): Option<string> {
    if name in slots then Some(slots[name]) else None
  }

  /** The result of `resolve_slots`: the merged slots, the keys of the
      returned `missing` dictionary (whose values are all None), and the
      prompt. */
  datatype Resolution = Resolution(merged: map<string, string>, missing: set<string>, prompt: Option<string>)

  /** The entity dictionary after `resolve_slots` has written the remembered
      course and assignment into the keys the user left empty. */
  function Inherit(ctx: Session, e: Entities): Entities {
    Entities(
      if !Present(e.course) && Present(ctx.lastCourse) then ctx.lastCourse else e.course,
      if !Present(e.assignment) && Present(ctx.lastAssignment) then ctx.lastAssignment else e.assignment)
  }

  /** `new_slots.items()`, in the dictionary's insertion order. */
  function Items(e: Entities): seq<(string, Option<string>)> {
    [(CourseSlot, e.course), (AssignmentSlot, e.assignment)]
  }

  /** The merge loop run over `items`, left to right: every truthy value is
      written under its key. */
  function MergeItems(slots: map<string, string>, items: seq<(string, Option<string>)>): map<string, string>
    decreases |items|
  {
    if items == [] then slots
    else MergeItems(if Present(items[0].1) then slots[items[0].0 := items[0].1.value] else slots, items[1..])
  }

  function Merge(slots: map<string, string>, e: Entities): map<string, string> {
    MergeItems(slots, Items(e))
  }

  /** The missing-slot list comprehension: the required slots, in order,
      that are not filled. */
  function MissingList(required: seq<string>, slots: map<string, string>): (r: seq<string>)
    ensures forall s :: s in r <==> s in required && !Filled(slots, s)
    ensures |r| <= |required|
  {
    if required == [] then []
    else (if Filled(slots, required[0]) then [] else [required[0]]) + MissingList(required[1..], slots)
  }

  /** The comprehension over `deadline`'s two required slots, spelled out. */
  lemma MissingOfDeadline(slots: map<string, string>)
    ensures MissingList(RequiredSlots("deadline"), slots)
            == (if Filled(slots, CourseSlot) then [] else [CourseSlot])
               + (if Filled(slots, AssignmentSlot) then [] else [AssignmentSlot])
  {
    var req := RequiredSlots("deadline");
    assert req[1..] == [AssignmentSlot];
    assert req[1..][1..] == [];
  }

  /** The tail of `resolve_slots`: the three prompt cases, then the final return. */
  function Report(merged: map<string, string>, missing: seq<string>): Resolution {
    if missing == [] then Resolution(merged, {}, None)
    else if missing == [CourseSlot] then Resolution(merged, {CourseSlot}, Some(AskCourse))
    else if missing == [AssignmentSlot] then Resolution(merged, {AssignmentSlot}, Some(AskAssignment))
    else if (set s | s in missing) == {CourseSlot, AssignmentSlot} then
      Resolution(merged, {CourseSlot, AssignmentSlot}, Some(AskBoth))
    else Resolution(merged, {}, None)
  }

  /** `resolve_slots(ctx, intent, new_slots)` as a value. */
  function Resolve(ctx: Session, intent: string, e: Entities): Resolution {
    var merged := Merge(ctx.slots, Inherit(ctx, e));
    Report(merged, MissingList(RequiredSlots(intent), merged))
  }

  /** `resolve_slots`: copies the session's slots, fills the caller's empty
      entities from memory (returned as `updated`, the caller's dictionary
      after the call), merges the truthy entities and reports what is missing. */
  method ResolveSlots(ctx: Session, intent: string, newSlots: Entities)
    returns (merged: map<string, string>, missing: set<string>, prompt: Option<string>, updated: Entities)
    ensures updated == Inherit(ctx, newSlots)
    ensures Resolution(merged, missing, prompt) == Resolve(ctx, intent, newSlots)
  {
    var slots := ctx.slots;
    updated := newSlots;
    if !Present(updated.course) && Present(ctx.lastCourse) {
      updated := updated.(course := ctx.lastCourse);
    }
    if !Present(updated.assignment) && Present(ctx.lastAssignment) {
      updated := updated.(assignment := ctx.lastAssignment);
    }
    var items := Items(updated);
    for i := 0 to |items|
      invariant MergeItems(slots, items[i..]) == Merge(ctx.slots, updated)
    {
      var (k, v) := items[i];
      if Present(v) {
        slots := slots[k := v.value];
      }
    }
    merged := slots;
    var missingList := MissingList(RequiredSlots(intent), merged);
    if missingList != [] {
      if missingList == [CourseSlot] {
        return merged, {CourseSlot}, Some(AskCourse), updated;
      }
      if missingList == [AssignmentSlot] {
        return merged, {AssignmentSlot}, Some(AskAssignment), updated;
      }
      if (set s | s in missingList) == {CourseSlot, AssignmentSlot} {
        return merged, {CourseSlot, AssignmentSlot}, Some(AskBoth), updated;
      }
    }
    missing, prompt := {}, None;
  }

  /** What the merge keeps and what it overwrites: a truthy entity is written
      under its key, every other key keeps its old value, and no other key
      appears. */
  lemma MergeSlots(slots: map<string, string>, e: Entities)
    ensures var m := Merge(slots, e);
      && m.Keys == slots.Keys
                   + (if Present(e.course) then {CourseSlot} else {})
                   + (if Present(e.assignment) then {AssignmentSlot} else {})
      && (Present(e.course) ==> m[CourseSlot] == e.course.value)
      && (Present(e.assignment) ==> m[AssignmentSlot] == e.assignment.value)
      && (forall k :: k in slots && k != CourseSlot && k != AssignmentSlot ==> m[k] == slots[k])
      && (!Present(e.course) ==> Get(m, CourseSlot) == Get(slots, CourseSlot))
      && (!Present(e.assignment) ==> Get(m, AssignmentSlot) == Get(slots, AssignmentSlot))
  {
    var items := Items(e);
    var s1 := if Present(e.course) then slots[CourseSlot := e.course.value] else slots;
    var s2 := if Present(e.assignment) then s1[AssignmentSlot := e.assignment.value] else s1;
    assert items[1..][1..] == [];
    calc {
      Merge(slots, e);
      MergeItems(slots, items);
      MergeItems(s1, items[1..]);
      MergeItems(s2, items[1..][1..]);
      s2;
    }
  }

  /** A course or assignment the user leaves out this turn is taken from the
      session's memory, and every truthy value of this turn lands in the
      merged slots; other keys of the session's slots keep their values. */
  lemma ResolveMergedSlots(ctx: Session, intent: string, e: Entities)
    ensures var r := Resolve(ctx, intent, e);
      && (Present(e.course) ==> Get(r.merged, CourseSlot) == e.course)
      && (!Present(e.course) && Present(ctx.lastCourse) ==> Get(r.merged, CourseSlot) == ctx.lastCourse)
      && (!Present(e.course) && !Present(ctx.lastCourse) ==> Get(r.merged, CourseSlot) == Get(ctx.slots, CourseSlot))
      && (Present(e.assignment) ==> Get(r.merged, AssignmentSlot) == e.assignment)
      && (!Present(e.assignment) && Present(ctx.lastAssignment) ==>
            Get(r.merged, AssignmentSlot) == ctx.lastAssignment)
      && (!Present(e.assignment) && !Present(ctx.lastAssignment) ==>
            Get(r.merged, AssignmentSlot) == Get(ctx.slots, AssignmentSlot))
      && (forall k :: k in ctx.slots && k != CourseSlot && k != AssignmentSlot ==>
            k in r.merged && r.merged[k] == ctx.slots[k])
      && r.merged.Keys <= ctx.slots.Keys + {CourseSlot, AssignmentSlot}
  {
    MergeSlots(ctx.slots, Inherit(ctx, e));
  }

  /** For `deadline`: the report names exactly the unfilled ones of the two
      slots. */
  lemma ReportDeadline(merged: map<string, string>)
    ensures var r := Report(merged, MissingList(RequiredSlots("deadline"), merged));
      && r.merged == merged
      && r.missing == (set s | s in [CourseSlot, AssignmentSlot] && !Filled(merged, s))
  {
    var list := MissingList(RequiredSlots("deadline"), merged);
    var expected := set s | s in [CourseSlot, AssignmentSlot] && !Filled(merged, s);
    MissingOfDeadline(merged);
    var c, a := Filled(merged, CourseSlot), Filled(merged, AssignmentSlot);
    if !c && !a {
      assert list == [CourseSlot, AssignmentSlot];
      assert expected == {CourseSlot, AssignmentSlot};
    } else if !c {
      assert list == [CourseSlot];
      assert expected == {CourseSlot};
    } else if !a {
      assert list == [AssignmentSlot];
      assert expected == {AssignmentSlot};
    } else {
      assert list == [];
      assert expected == {};
    }
  }

  /** The report on a merged map names exactly the required slots it leaves
      unfilled, and keeps the map. */
  lemma ReportMissing(merged: map<string, string>, intent: string)
    ensures var r := Report(merged, MissingList(RequiredSlots(intent), merged));
      && r.merged == merged
      && r.missing == (set s | s in RequiredSlots(intent) && !Filled(merged, s))
      && (RequiredSlots(intent) == [] ==> r.prompt == None)
  {
    if intent == "deadline" {
      ReportDeadline(merged);
    } else if intent == "schedule" {
      var expected := set s | s in [CourseSlot] && !Filled(merged, s);
      if Filled(merged, CourseSlot) {
        assert expected == {};
      } else {
        assert expected == {CourseSlot};
      }
    } else {
      assert RequiredSlots(intent) == [];
    }
  }

  /** The reported missing slots are exactly the required slots that are not
      filled after the merge; an intent without requirements misses nothing
      and has no prompt. */
  lemma ResolveMissing(ctx: Session, intent: string, e: Entities)
    ensures var r := Resolve(ctx, intent, e);
      && r.missing == (set s | s in RequiredSlots(intent) && !Filled(r.merged, s))
      && (r.missing == {} <==> forall s :: s in RequiredSlots(intent) ==> Filled(r.merged, s))
      && (RequiredSlots(intent) == [] ==> r.missing == {} && r.prompt == None)
  {
    ReportMissing(Merge(ctx.slots, Inherit(ctx, e)), intent);
  }

  /** The prompt is the exact text for the set of missing slots, and there is
      a prompt exactly when something is missing. */
  lemma ResolvePrompt(ctx: Session, intent: string, e: Entities)
    ensures var r := Resolve(ctx, intent, e);
      && (r.missing == {CourseSlot} ==> r.prompt == Some(AskCourse))
      && (r.missing == {AssignmentSlot} ==> r.prompt == Some(AskAssignment))
      && (r.missing == {CourseSlot, AssignmentSlot} ==> r.prompt == Some(AskBoth))
      && (r.missing == {} <==> r.prompt == None)
  {
    var r := Resolve(ctx, intent, e);
    var list := MissingList(RequiredSlots(intent), r.merged);
    if intent == "deadline" {
      MissingOfDeadline(r.merged);
    }
  }

  /** Feeding the merged slots back in as the session's slots, with the same
      entities and memory, gives the same merged slots and the same result. */
  lemma ResolveIdempotent(ctx: Session, intent: string, e: Entities)
    ensures var r := Resolve(ctx, intent, e);
            Resolve(ctx.(slots := r.merged), intent, e) == r
  {
    var inh := Inherit(ctx, e);
    var m := Merge(ctx.slots, inh);
    MergeSlots(ctx.slots, inh);
    MergeSlots(m, inh);
    assert Merge(m, inh) == m;
  }

  /** With a remembered course and an assignment named this turn, a
      `deadline` request is complete: nothing is missing and the remembered
      course is used when none is named. */
  lemma DeadlineCompleteWithMemory(ctx: Session, e: Entities)
    requires Present(ctx.lastCourse) && Present(e.assignment)
    ensures var r := Resolve(ctx, "deadline", e);
      && r.missing == {} && r.prompt == None
      && Get(r.merged, AssignmentSlot) == e.assignment
      && Get(r.merged, CourseSlot) == (if Present(e.course) then e.course else ctx.lastCourse)
  {
    var r := Resolve(ctx, "deadline", e);
    MergeSlots(ctx.slots, Inherit(ctx, e));
    MissingOfDeadline(r.merged);
  }

  /** Python's `str()` of an optional slot value inside an f-string. */
  function Show(v: Option<string>): string {
    if v.Some? then v.value else "None"
  }

  /** `handle_intent`: the reply for a resolved intent, from the two lookups. */
  function HandleIntent(db: Db, ctx: Session, intent: string, slots: map<string, string>): string {
    var course := Get(slots, CourseSlot);
    var assignment := Get(slots, AssignmentSlot);
    if intent == "schedule" then
      match LookupSchedule(db, course)
      case Some(data) => "Schedule for " + Show(course) + ":\n• " + data.title + "\n" + data.details
      case None =>
        "I don't have schedule data for " + Show(course)
        + " yet. Please check the official announcement or contact the coordinator."
    else if intent == "deadline" then
      match LookupDeadline(db, course, assignment)
      case Some(data) =>
        "Deadline for " + Show(course) + " " + Show(assignment) + ": " + data.dueAt + "\nSubmit via: " + data.submitTo
      case None =>
        "I don't have a deadline record for " + Show(course) + " " + Show(assignment)
        + ". Please follow the course outline/announcement."
    else Stall
  }

  predicate StartsWith(s: string, prefix: string) {
    |prefix| <= |s| && s[..|prefix|] == prefix
  }

  /** A `schedule` reply: the record's title and details under the course when
      the lookup finds it, otherwise the apology naming the course; the reply
      starts with "Schedule for " exactly when the record was found. */
  lemma ScheduleReply(db: Db, ctx: Session, slots: map<string, string>)
    requires Filled(slots, CourseSlot)
    ensures var c := slots[CourseSlot];
            var r := HandleIntent(db, ctx, "schedule", slots);
      && (c in db.schedules ==>
            r == "Schedule for " + c + ":\n• " + db.schedules[c].title + "\n" + db.schedules[c].details)
      && (c !in db.schedules ==>
            r == "I don't have schedule data for " + c
                 + " yet. Please check the official announcement or contact the coordinator.")
      && (StartsWith(r, "Schedule for ") <==> c in db.schedules)
  {
    var c := slots[CourseSlot];
    var r := HandleIntent(db, ctx, "schedule", slots);
    if c !in db.schedules {
      assert r[0] == 'I';
    }
  }

  /** A `deadline` reply: the due date and submission channel of the pair when
      the lookup finds it, otherwise the apology naming course and assignment;
      the reply starts with "Deadline for " exactly when the record was found. */
  lemma DeadlineReply(db: Db, ctx: Session, slots: map<string, string>)
    requires Filled(slots, CourseSlot) && Filled(slots, AssignmentSlot)
    ensures var c := slots[CourseSlot];
            var a := slots[AssignmentSlot];
            var r := HandleIntent(db, ctx, "deadline", slots);
      && ((c, a) in db.deadlines ==>
            r == "Deadline for " + c + " " + a + ": " + db.deadlines[(c, a)].dueAt
                 + "\nSubmit via: " + db.deadlines[(c, a)].submitTo)
      && ((c, a) !in db.deadlines ==>
            r == "I don't have a deadline record for " + c + " " + a
                 + ". Please follow the course outline/announcement.")
      && (StartsWith(r, "Deadline for ") <==> (c, a) in db.deadlines)
  {
    var c := slots[CourseSlot];
    var a := slots[AssignmentSlot];
    var r := HandleIntent(db, ctx, "deadline", slots);
    if (c, a) !in db.deadlines {
      var x := "I don't have a deadline record for " + c;
      assert x[0] == 'I';
      assert (x + " " + a)[0] == 'I';
      assert r == x + " " + a + ". Please follow the course outline/announcement.";
      assert r[0] != 'D';
    }
  }

  /** Any intent other than `schedule` and `deadline` gets the stalling reply,
      and the session passed in is never consulted. */
  lemma HandleIntentOtherwise(db: Db, ctx: Session, ctx': Session, intent: string, slots: map<string, string>)
    ensures HandleIntent(db, ctx, intent, slots) == HandleIntent(db, ctx', intent, slots)
    ensures intent != "schedule" && intent != "deadline" ==> HandleIntent(db, ctx, intent, slots) == Stall
  {
  }
}
