/**
 * Properties of a turn of `handle_text`: the order in which its branches are
 * tried, what each branch does to the session, the shape of the session that
 * every turn keeps, and the conversations the bot is built for.
 */
module ChatbotLemmas {
  import opened Wrappers
  import opened Text
  import opened Data
  import opened Dialog
  import opened Nlu
  import opened Chatbot

  // ---------------------------------------------------------------------
  // Branch order, on the stripped text

  /** A menu literal is answered before the feedback pattern and the NLU:
      the engine is not consulted, and only "Reset" writes the session,
      replacing it by the default one. */
  lemma MenuComesFirst(env: Env, other: Engine, store: Option<Session>, text: string)
    requires MenuOf(text).Some?
    ensures var o := TextTurn(env, store, text);
      && o == TextTurn(env.(nlu := other), store, text)
      && o.reply.Some?
      && o.store == (if MenuOf(text) == Some(MenuReset) then Some(DefaultSession) else store)
      && |o.log| <= 1
      && (forall k :: 0 <= k < |o.log| ==> o.log[k].Logged? && o.log[k].direction == "in")
  {
  }

  /** Feedback is recorded with its rating and comment, followed by the
      inbound record; the reply does not depend on the engine or on the
      session, and the session store is left as it was. */
  lemma FeedbackLeavesSession(env: Env, other: Engine, store: Option<Session>, otherStore: Option<Session>,
                              text: string)
    requires MenuOf(text).None? && Feedback(text).Some?
    ensures var fb := Feedback(text).value;
            var o := TextTurn(env, store, text);
            var o' := TextTurn(env.(nlu := other), otherStore, text);
      && 1 <= fb.0 <= 5
      && o == Outcome(Some(Thanks), [FeedbackEntry(fb.0, fb.1), Logged("in", text, Some("feedback"), 1.0)], store)
      && o'.reply == o.reply && o'.log == o.log
  {
  }

  /** Past the menu and the feedback pattern, the session row exists after
      the turn, and the first record is the analysed inbound message. */
  lemma DialogueTurnLogsInbound(env: Env, store: Option<Session>, text: string)
    requires MenuOf(text).None? && Feedback(text).None?
    ensures var o := TextTurn(env, store, text);
            var a := Analyze(env.nlu, text);
      && o.store.Some? && o.reply.Some?
      && |o.log| >= 1
      && o.log[0] == Logged("in", text, a.intent, a.confidence)
  {
  }

  // ---------------------------------------------------------------------
  // What each branch does to the session

  /** A FAQ answer leaves any pending request and its slots as they are, and
      remembers only the truthy entities of this turn. */
  lemma FaqAnswerKeepsPending(env: Env, ctx: Session, a: Analysis)
    requires a.intent == Some("faq") && a.faqId.Some?
    ensures var s := DialogStep(env, ctx, a);
            var row := FindFaq(env.db.faqs, a.faqId.value);
            var answer := if row.Some? then row.value.answer else NoAnswer;
      && s.reply == "[Possible answer] (confidence " + env.fixed2(a.confidence) + ")\n" + answer
      && s.log == [Logged("out", answer, Some("faq"), a.confidence)]
      && s.session.pendingIntent == ctx.pendingIntent
      && s.session.slots == ctx.slots
      && (Present(a.entities.course) ==> s.session.lastCourse == a.entities.course)
      && (!Present(a.entities.course) ==> s.session.lastCourse == ctx.lastCourse)
      && (Present(a.entities.assignment) ==> s.session.lastAssignment == a.entities.assignment)
      && (!Present(a.entities.assignment) ==> s.session.lastAssignment == ctx.lastAssignment)
  {
  }

  /** A missing slot set has one of the three shapes the prompts cover. */
  lemma MissingShapes(ctx: Session, intent: string, e: Entities)
    requires intent == "schedule" || intent == "deadline"
    ensures var r := Resolve(ctx, intent, e);
      r.missing != {} ==>
        || (r.missing == {CourseSlot} && r.prompt == Some(AskCourse))
        || (r.missing == {AssignmentSlot} && r.prompt == Some(AskAssignment))
        || (r.missing == {CourseSlot, AssignmentSlot} && r.prompt == Some(AskBoth))
  {
    var r := Resolve(ctx, intent, e);
    ResolveMissing(ctx, intent, e);
    ResolvePrompt(ctx, intent, e);
    if r.missing != {} {
      var c, s := Filled(r.merged, CourseSlot), Filled(r.merged, AssignmentSlot);
      if intent == "schedule" {
        assert r.missing == {CourseSlot};
      } else if !c && !s {
        assert r.missing == {CourseSlot, AssignmentSlot};
      } else if !c {
        assert r.missing == {CourseSlot};
      } else {
        assert r.missing == {AssignmentSlot};
      }
    }
  }

  /** On the slot path, an incomplete request is remembered as pending with
      the merged slots and the prompt for exactly the missing slots is sent; a complete one
      is answered, its slots become the remembered course and assignment,
      and the pending state is cleared. */
  lemma SlotPathOutcome(env: Env, ctx: Session, a: Analysis)
    requires !(a.intent == Some("faq") && a.faqId.Some?) && IsSlotIntent(CurrentIntent(ctx, a))
    ensures var intent := CurrentIntent(ctx, a).value;
            var r := Resolve(ctx, intent, a.entities);
            var s := DialogStep(env, ctx, a);
      && (r.missing != {} ==>
            && r.prompt.Some? && s.reply == r.prompt.value
            && (s.reply == AskCourse || s.reply == AskAssignment || s.reply == AskBoth)
            && s.log == [Logged("out", s.reply, Some("ask_slot"), 1.0)]
            && s.session == ctx.(pendingIntent := Some(intent), slots := r.merged))
      && (r.missing == {} ==>
            && s.reply == HandleIntent(env.db, ctx, intent, r.merged)
            && s.log == [Logged("out", s.reply, Some(intent), 1.0)]
            && s.session.pendingIntent == None && s.session.slots == map[]
            && (forall x :: x in RequiredSlots(intent) ==> Filled(r.merged, x))
            && s.session.lastCourse == (if Filled(r.merged, CourseSlot) then Some(r.merged[CourseSlot]) else ctx.lastCourse)
            && s.session.lastAssignment ==
                 (if Filled(r.merged, AssignmentSlot) then Some(r.merged[AssignmentSlot]) else ctx.lastAssignment))
    ensures var intent := CurrentIntent(ctx, a).value;
            var r := Resolve(ctx, intent, a.entities);
            var s := DialogStep(env, ctx, a);
      && (r.missing == {CourseSlot} ==> s.reply == AskCourse)
      && (r.missing == {AssignmentSlot} ==> s.reply == AskAssignment)
      && (r.missing == {CourseSlot, AssignmentSlot} ==> s.reply == AskBoth)
  {
    var intent := CurrentIntent(ctx, a).value;
    MissingShapes(ctx, intent, a.entities);
    ResolveMissing(ctx, intent, a.entities);
    ResolvePrompt(ctx, intent, a.entities);
  }

  /** Slot filling and execution never read the pending request. */
  lemma SlotStepIgnoresPending(env: Env, ctx: Session, p: Option<string>, intent: string, e: Entities)
    ensures var s := SlotStep(env, ctx, intent, e);
            var s' := SlotStep(env, ctx.(pendingIntent := p), intent, e);
      s'.reply == s.reply && s'.log == s.log
  {
    var ctx' := ctx.(pendingIntent := p);
    assert Inherit(ctx', e) == Inherit(ctx, e);
    assert Resolve(ctx', intent, e) == Resolve(ctx, intent, e);
    HandleIntentOtherwise(env.db, ctx, ctx', intent, Resolve(ctx, intent, e).merged);
  }

  /** Nor does the promotion of an assignment to a `deadline` request. */
  lemma AutoDeadlineIgnoresPending(env: Env, ctx: Session, p: Option<string>, e: Entities)
    ensures var s := AutoDeadlineStep(env, ctx, e);
            var s' := AutoDeadlineStep(env, ctx.(pendingIntent := p), e);
      s'.reply == s.reply && s'.log == s.log
  {
    var ctx' := ctx.(pendingIntent := p);
    assert Inherit(ctx', e) == Inherit(ctx, e);
    assert Resolve(ctx', "deadline", e) == Resolve(ctx, "deadline", e);
    HandleIntentOtherwise(env.db, ctx, ctx', "deadline", Resolve(ctx, "deadline", e).merged);
  }

  /** The pending request is consulted only when no intent is detected: with
      a detected intent, the reply and the records do not depend on it. */
  lemma PendingOnlyWithoutIntent(env: Env, ctx: Session, a: Analysis, p: Option<string>)
    requires Present(a.intent)
    ensures var s := DialogStep(env, ctx, a);
            var s' := DialogStep(env, ctx.(pendingIntent := p), a);
      s'.reply == s.reply && s'.log == s.log
  {
    if a.intent == Some("faq") && a.faqId.Some? {
    } else if IsSlotIntent(a.intent) {
      SlotStepIgnoresPending(env, ctx, p, a.intent.value, a.entities);
    } else if Present(a.entities.course) && !Present(a.entities.assignment) {
    } else if Present(a.entities.assignment) && Present(ctx.lastCourse) {
      AutoDeadlineIgnoresPending(env, ctx, p, a.entities);
    }
  }

  /** A course code on its own, with no intent to serve, is remembered, any
      pending request is dropped, and the user is asked what they want. */
  lemma CourseOnlyClarifies(env: Env, ctx: Session, a: Analysis)
    requires !(a.intent == Some("faq") && a.faqId.Some?) && !IsSlotIntent(CurrentIntent(ctx, a))
    requires Present(a.entities.course) && !Present(a.entities.assignment)
    ensures var s := DialogStep(env, ctx, a);
      && s.reply == Clarify
      && s.log == [Logged("out", Clarify, Some("clarify_next"), 1.0)]
      && s.session == Session(None, map[], a.entities.course, ctx.lastAssignment)
  {
  }

  /** An assignment with a remembered course, and no intent to serve, is
      answered as a deadline request at once: nothing is ever asked, the
      course is this turn's when one is named and the remembered one
      otherwise, and only the assignment is remembered afterwards. */
  lemma AutoPromotionAnswersDeadline(env: Env, ctx: Session, a: Analysis)
    requires !(a.intent == Some("faq") && a.faqId.Some?) && !IsSlotIntent(CurrentIntent(ctx, a))
    requires Present(a.entities.assignment) && Present(ctx.lastCourse)
    ensures var s := DialogStep(env, ctx, a);
            var slots := Resolve(ctx, "deadline", a.entities).merged;
            var course := if Present(a.entities.course) then a.entities.course.value else ctx.lastCourse.value;
            var assignment := a.entities.assignment.value;
      && Filled(slots, CourseSlot) && slots[CourseSlot] == course
      && Filled(slots, AssignmentSlot) && slots[AssignmentSlot] == assignment
      && s.reply == HandleIntent(env.db, ctx, "deadline", slots)
      && (StartsWith(s.reply, "Deadline for ") <==> (course, assignment) in env.db.deadlines)
      && s.log == [Logged("out", s.reply, Some("deadline"), 1.0)]
      && s.session == Session(None, map[], ctx.lastCourse, a.entities.assignment)
  {
    var r := Resolve(ctx, "deadline", a.entities);
    DeadlineCompleteWithMemory(ctx, a.entities);
    DeadlineReply(env.db, ctx, r.merged);
  }

  /** Without an intent to serve, and without a lone course or an assignment
      that memory can complete, the fallback is sent and nothing is written:
      this includes a course and an assignment together when no course is
      remembered. */
  lemma FallbackWritesNothing(env: Env, ctx: Session, a: Analysis)
    requires !(a.intent == Some("faq") && a.faqId.Some?) && !IsSlotIntent(CurrentIntent(ctx, a))
    requires !(Present(a.entities.course) && !Present(a.entities.assignment))
    requires !(Present(a.entities.assignment) && Present(ctx.lastCourse))
    ensures DialogStep(env, ctx, a) == Step(Fallback, [Logged("out", Fallback, Some("fallback"), 0.0)], ctx)
  {
  }

  // ---------------------------------------------------------------------
  // The session invariant

  /** The sessions turns produce: a pending request is a `schedule` or
      `deadline` request still waiting for a slot, no slots are kept without
      one, slots are only the course and the assignment and are never empty,
      and remembered values are never empty. */
  predicate WellFormed(s: Session) {
    && (s.pendingIntent.None? ==> s.slots == map[])
    && (s.pendingIntent.Some? ==>
          && IsSlotIntent(s.pendingIntent)
          && !(forall x :: x in RequiredSlots(s.pendingIntent.value) ==> Filled(s.slots, x)))
    && s.slots.Keys <= {CourseSlot, AssignmentSlot}
    && (forall k :: k in s.slots ==> s.slots[k] != "")
    && (s.lastCourse.Some? ==> s.lastCourse.value != "")
    && (s.lastAssignment.Some? ==> s.lastAssignment.value != "")
  }

  /** Merging into well-formed slots keeps to the two slot names and never
      stores an empty value. */
  lemma MergedSlotsWellFormed(ctx: Session, intent: string, e: Entities)
    requires WellFormed(ctx)
    ensures var m := Resolve(ctx, intent, e).merged;
      && m.Keys <= {CourseSlot, AssignmentSlot}
      && (forall k :: k in m ==> m[k] != "")
  {
    var m := Resolve(ctx, intent, e).merged;
    ResolveMergedSlots(ctx, intent, e);
    forall k | k in m
      ensures m[k] != ""
    {
      assert k == CourseSlot || k == AssignmentSlot;
      assert Get(m, k) == Some(m[k]);
    }
  }

  /** Slot filling keeps the session well formed: it is left pending only
      with something still missing, and cleared once the request is served. */
  lemma SlotStepKeepsWellFormed(env: Env, ctx: Session, intent: string, e: Entities)
    requires WellFormed(ctx) && IsSlotIntent(Some(intent))
    ensures WellFormed(SlotStep(env, ctx, intent, e).session)
  {
    var s := SlotStep(env, ctx, intent, e).session;
    var r := Resolve(ctx, intent, e);
    MergedSlotsWellFormed(ctx, intent, e);
    ResolveMissing(ctx, intent, e);
    if r.missing == {} {
      assert s.slots == map[];
    }
  }

  /** So does the promotion of an assignment to a `deadline` request. */
  lemma AutoDeadlineKeepsWellFormed(env: Env, ctx: Session, e: Entities)
    requires WellFormed(ctx) && Present(e.assignment) && Present(ctx.lastCourse)
    ensures WellFormed(AutoDeadlineStep(env, ctx, e).session)
  {
    DeadlineCompleteWithMemory(ctx, e);
  }

  /** Every branch after the session is loaded keeps it well formed. */
  lemma DialogStepKeepsWellFormed(env: Env, ctx: Session, a: Analysis)
    requires WellFormed(ctx)
    ensures WellFormed(DialogStep(env, ctx, a).session)
  {
    var current := CurrentIntent(ctx, a);
    if a.intent == Some("faq") && a.faqId.Some? {
    } else if IsSlotIntent(current) {
      SlotStepKeepsWellFormed(env, ctx, current.value, a.entities);
    } else if Present(a.entities.course) && !Present(a.entities.assignment) {
    } else if Present(a.entities.assignment) && Present(ctx.lastCourse) {
      AutoDeadlineKeepsWellFormed(env, ctx, a.entities);
    }
  }

  /** Every handling of a message keeps the stored session well formed. */
  lemma TextTurnKeepsWellFormed(env: Env, store: Option<Session>, text: string)
    requires store.None? || WellFormed(store.value)
    ensures var o := TextTurn(env, store, text);
      o.store.None? || WellFormed(o.store.value)
  {
    if MenuOf(text).None? && Feedback(text).None? {
      DialogStepKeepsWellFormed(env, Load(store), Analyze(env.nlu, text));
    }
  }

  /** Every turn keeps the stored session well formed. */
  lemma TurnKeepsWellFormed(env: Env, store: Option<Session>, inbound: Inbound)
    requires store.None? || WellFormed(store.value)
    ensures var o := Turn(env, store, inbound);
      o.store.None? || WellFormed(o.store.value)
  {
    match inbound {
      case NoMessage =>
      case Message(raw) =>
        var t := TextOf(raw);
        TextTurnKeepsWellFormed(env, store, t);
    }
  }

  // ---------------------------------------------------------------------
  // Conversations

  /** A message naming only a course, with no rule intent and no FAQ hit,
      in a fresh session: the course is remembered and the user asked what
      they want. */
  lemma CourseCodeTurn(env: Env, t: string, course: string)
    requires MenuOf(t).None? && Feedback(t).None?
    requires Analyze(env.nlu, t).intent == None
    requires ExtractEntities(t) == Entities(Some(course), None) && course != ""
    ensures var o := TextTurn(env, None, t);
      && o.reply == Some(Clarify)
      && o.store == Some(Session(None, map[], Some(course), None))
  {
    CourseOnlyClarifies(env, DefaultSession, Analyze(env.nlu, t));
  }

  /** An assignment alone, with no intent or a deadline intent, while a
      course is remembered and nothing is pending: the deadline is answered
      for the remembered course, and both values are remembered with nothing
      pending. */
  lemma AssignmentWithMemoryStep(env: Env, a: Analysis, course: string, assignment: string)
    requires a.intent == None || a.intent == Some("deadline")
    requires a.entities == Entities(None, Some(assignment)) && assignment != "" && course != ""
    ensures var s := DialogStep(env, Session(None, map[], Some(course), None), a);
      && s.reply == HandleIntent(env.db, DefaultSession, "deadline",
                                 map[CourseSlot := course, AssignmentSlot := assignment])
      && s.session == Session(None, map[], Some(course), Some(assignment))
  {
    var ctx := Session(None, map[], Some(course), None);
    var e := a.entities;
    var merged := map[CourseSlot := course, AssignmentSlot := assignment];
    assert Resolve(ctx, "deadline", e).merged == merged by {
      DeadlineCompleteWithMemory(ctx, e);
      ResolveMergedSlots(ctx, "deadline", e);
    }
    HandleIntentOtherwise(env.db, ctx, DefaultSession, "deadline", merged);
    if a.intent == None {
      AutoPromotionAnswersDeadline(env, ctx, a);
    } else {
      DeadlineCompleteWithMemory(ctx, e);
      SlotPathOutcome(env, ctx, a);
    }
  }

  /** The same, for a message whose text names only an assignment, sent
      while a course is remembered and nothing is pending. */
  lemma AssignmentQuestionTurn(env: Env, t: string, course: string, assignment: string)
    requires MenuOf(t).None? && Feedback(t).None?
    requires Analyze(env.nlu, t).intent == None || Analyze(env.nlu, t).intent == Some("deadline")
    requires ExtractEntities(t) == Entities(None, Some(assignment)) && assignment != "" && course != ""
    ensures var o := TextTurn(env, Some(Session(None, map[], Some(course), None)), t);
      && o.reply == Some(HandleIntent(env.db, DefaultSession, "deadline",
                                      map[CourseSlot := course, AssignmentSlot := assignment]))
      && o.store == Some(Session(None, map[], Some(course), Some(assignment)))
  {
    AssignmentWithMemoryStep(env, Analyze(env.nlu, t), course, assignment);
  }

  /** "158.780" is a dialogue message naming only a course. */
  lemma CourseCodeText(t: string)
    requires t == "158.780"
    ensures MenuOf(t).None? && Feedback(t).None? && ExtractEntities(t) == Entities(Some("158.780"), None)
  {
    assert MenuOf(t).None?;
    assert Feedback(t).None? by {
      assert SpaceRun(t, 1) == 0;
      FeedbackOnStrippedText(t);
    }
    assert ExtractEntities(t) == Entities(Some("158.780"), None) by {
      CourseOnlyExample(t);
    }
  }

  /** "A1 deadline?" is a dialogue message naming only an assignment. */
  lemma AssignmentQuestionText(t: string)
    requires t == "A1 deadline?"
    ensures MenuOf(t).None? && Feedback(t).None? && ExtractEntities(t) == Entities(None, Some("A1"))
  {
    assert MenuOf(t).None?;
    assert Feedback(t).None? by {
      FeedbackOnStrippedText(t);
    }
    assert ExtractEntities(t) == Entities(None, Some("A1")) by {
      AssignmentOnlyExample(t);
    }
  }

  /** "158.780 A1" is a dialogue message naming a course and an assignment. */
  lemma CourseAndAssignmentText(t: string)
    requires t == "158.780 A1"
    ensures MenuOf(t).None? && Feedback(t).None? && ExtractEntities(t) == Entities(Some("158.780"), Some("A1"))
  {
    assert MenuOf(t).None?;
    assert Feedback(t).None? by {
      assert SpaceRun(t, 1) == 0;
      FeedbackOnStrippedText(t);
    }
    assert ExtractEntities(t) == Entities(Some("158.780"), Some("A1")) by {
      CourseExample(t);
    }
  }

  /** A bare course code with no intent, then "A1 deadline?" with no intent
      or the deadline intent: the second message is answered from the course
      the first one left in memory. */
  lemma RememberedCourseConversation(env: Env, t1: string, t2: string)
    requires t1 == "158.780" && t2 == "A1 deadline?"
    requires Analyze(env.nlu, t1).intent == None
    requires Analyze(env.nlu, t2).intent == None || Analyze(env.nlu, t2).intent == Some("deadline")
    ensures var o1 := TextTurn(env, None, t1);
            var o2 := TextTurn(env, o1.store, t2);
      && o1.reply == Some(Clarify)
      && o2.reply == Some(HandleIntent(env.db, DefaultSession, "deadline",
                                       map[CourseSlot := "158.780", AssignmentSlot := "A1"]))
      && o2.store == Some(Session(None, map[], Some("158.780"), Some("A1")))
  {
    CourseCodeText(t1);
    AssignmentQuestionText(t2);
    CourseCodeTurn(env, t1, "158.780");
    AssignmentQuestionTurn(env, t2, "158.780", "A1");
  }

  /** "3 great bot" is stored as feedback with rating 3, and the session is
      not touched. */
  lemma FeedbackConversation(env: Env, store: Option<Session>, t: string)
    requires t == "3 great bot"
    ensures TextTurn(env, store, t)
            == Outcome(Some(Thanks), [FeedbackEntry(3, "great bot"), Logged("in", t, Some("feedback"), 1.0)], store)
  {
    assert MenuOf(t) == None;
    FeedbackExample(t);
  }

  /** The "Deadlines" menu asks for a course and an assignment but leaves the
      store as it was: no request is left pending. */
  lemma DeadlineMenuLeavesNothingPending(env: Env, store: Option<Session>, t: string)
    requires t == "Deadlines"
    ensures TextTurn(env, store, t)
            == Outcome(Some(AskCourseAndAssignment), [Logged("in", t, Some("menu_deadline"), 1.0)], store)
  {
    assert MenuOf(t) == Some(MenuDeadlines);
  }

  /** So "158.780 A1" sent after it to a fresh session, with no rule or FAQ
      match, falls back instead of answering the deadline. */
  lemma BothAfterDeadlineMenuFallsBack(env: Env, t: string)
    requires t == "158.780 A1"
    requires Analyze(env.nlu, t).intent == None
    ensures var o := TextTurn(env, None, t);
      o.reply == Some(Fallback) && o.store == Some(DefaultSession)
  {
    CourseAndAssignmentText(t);
    CourseAndAssignmentFallBack(env, t, "158.780", "A1");
  }

  /** A message naming a course and an assignment, with no intent and no
      FAQ match, in a fresh session falls back: only a remembered course
      lets an assignment through. */
  lemma CourseAndAssignmentFallBack(env: Env, t: string, course: string, assignment: string)
    requires MenuOf(t).None? && Feedback(t).None?
    requires Analyze(env.nlu, t).intent == None
    requires ExtractEntities(t) == Entities(Some(course), Some(assignment)) && assignment != ""
    ensures var o := TextTurn(env, None, t);
      o.reply == Some(Fallback) && o.store == Some(DefaultSession)
  {
    FallbackWritesNothing(env, DefaultSession, Analyze(env.nlu, t));
  }
}
