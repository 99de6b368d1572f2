/**
 * The per-message turn of the bot (chatbot_edu.py, `handle_text`): menu
 * literals, the feedback pattern, a FAQ answer, slot filling or execution of
 * a `schedule`/`deadline` request, entity-only guidance, and the fallback,
 * tried in that order, each with its own updates of the session.
 *
 * The transport is reduced to its effects: the reply text sent back, the
 * records appended to the message and feedback logs, and the session row
 * left in the store. The NLU engine and the number formatting of
 * `{conf:.2f}` are given to the turn.
 */
module Chatbot {
  import opened Wrappers
  import opened Text
  import opened Data
  import opened Dialog
  import opened Nlu

  // ---------------------------------------------------------------------
  // Fixed texts

  const AskCourseAndAssignment := "Please tell me the course code and assignment (e.g., 158.780 A1)."
  const HelpText := "Multi-turn example:\nYou: 158.780 what's this week?\nBot: returns the schedule\nYou: A1 deadline?\nBot: uses the remembered course to answer directly\n\nCommands: /start /help /reset"
  const ResetText := "Context has been reset."
  const Thanks := "Thanks! Your feedback has been recorded. 🙏"
  const Clarify := "Course code received. Do you want the schedule 🗓️ or an assignment deadline ⏰?\nReply with “Schedule” or “Deadlines”, or ask directly like “A1 deadline?”."
  const Fallback := "I didn't fully understand that 🤔\n• Try “Schedule” or “Deadlines”\n• Or ask directly: 158.780 A1 deadline?\n• Send “FAQs” to see examples."
  const NoFaqs := "No FAQs available yet."
  const FaqHeader := "📚 Sample FAQs:"
  const NoAnswer := "Sorry, I couldn't find a suitable answer."

  // ---------------------------------------------------------------------
  // Effects of a turn

  /** An inbound update: no message at all, or a message whose text may be absent. */
  datatype Inbound = NoMessage | Message(text: Option<string>)

  /** A record appended by `log_message` or `add_feedback`. */
  datatype Record =
    | Logged(direction: string, text: string, intent: Option<string>, confidence: real)
    | FeedbackEntry(rating: int, comment: string)

  /** What a turn leaves behind: the reply sent (if any), the records
      appended, in order, and the user's session row (None: no row). */
  datatype Outcome = Outcome(reply: Option<string>, log: seq<Record>, store: Option<Session>)

  /** What the session-reading part of a turn produces: the reply, the
      records it appends after the inbound record, and the context it leaves
      in the store. */
  datatype Step = Step(reply: string, log: seq<Record>, session: Session)

  /** The collaborators of a turn: the business data, the NLU engine, and
      Python's `{:.2f}` formatting of a confidence. */
  datatype Env = Env(db: Db, nlu: Engine, fixed2: real -> string)

  // ---------------------------------------------------------------------
  // Menu literals

  datatype MenuAction = MenuFaqs | MenuSchedule | MenuDeadlines | MenuHelp | MenuReset

  /** The menu and command vocabulary, matched exactly against the stripped text. */
  function MenuOf(text: string): Option<MenuAction> {
    if text in ["📚 FAQs", "FAQs", "FAQ", "faqs"] then Some(MenuFaqs)
    else if text in ["🗓️ Schedule", "Schedule", "schedule"] then Some(MenuSchedule)
    else if text in ["⏰ Deadlines", "Deadlines", "Deadline", "deadline"] then Some(MenuDeadlines)
    else if text in ["❓Help", "Help", "/help"] then Some(MenuHelp)
    else if text in ["🔄 Reset", "/reset"] then Some(MenuReset)
    else None
  }

  /** The lines of the FAQ listing: the header, then one bullet for each of
      the first ten questions. */
  function FaqLines(rows: seq<FaqRow>): (lines: seq<string>)
    ensures |lines| == 1 + (if |rows| < 10 then |rows| else 10)
  {
    var n := if |rows| < 10 then |rows| else 10;
    [FaqHeader] + seq(n, i requires 0 <= i < n => "• " + rows[i].question)
  }

  /** `format_faq_list`: the first ten questions as a bulleted list, or a
      notice when there are none. */
  method FormatFaqList(rows: seq<FaqRow>) returns (r: string)
    ensures rows == [] ==> r == NoFaqs
    ensures rows != [] ==> r == Join("\n", FaqLines(rows))
  {
    if rows == [] {
      return NoFaqs;
    }
    var top := if |rows| < 10 then rows else rows[..10];
    var lines := [FaqHeader];
    for i := 0 to |top|
      invariant |lines| == i + 1 && lines[0] == FaqHeader
      invariant forall k :: 0 <= k < i ==> lines[k + 1] == "• " + rows[k].question
    {
      lines := lines + ["• " + top[i].question];
    }
    assert lines == FaqLines(rows);
    r := Join("\n", lines);
  }

  /** At most ten questions are listed: with ten rows or more the listing has
      exactly eleven lines, the header and the first ten questions in order. */
  lemma FaqListingIsFirstTen(rows: seq<FaqRow>, k: nat)
    ensures var lines := FaqLines(rows);
      && lines[0] == FaqHeader
      && (k < |rows| && k < 10 ==> lines[k + 1] == "• " + rows[k].question)
      && (|rows| >= 10 ==> |lines| == 11)
  {
  }

  // ---------------------------------------------------------------------
  // Feedback pattern ^\s*([1-5])\s+(.+)$ (re.match, no flags)

  /** `(.+)$` tried from position `p`: the rest of the text when it holds no
      newline, or the rest up to a newline that ends the text. */
  function LineTail(s: string, p: nat): (r: Option<string>)
    requires p <= |s|
    ensures r.Some? ==> r.value != [] && '\n' !in r.value
  {
    var t := s[p..];
    if t != [] && '\n' !in t then Some(t)
    else if |t| >= 2 && t[|t| - 1] == '\n' && '\n' !in t[..|t| - 1] then Some(t[..|t| - 1])
    else None
  }

  /** Backtracking over `\s+`: group 2 starting at `p`, then at `p - 1`, down
      to the first position after the rating digit's first whitespace. */
  function TailFrom(s: string, start: nat, p: nat): (r: Option<string>)
    requires start < p <= |s|
    decreases p
    ensures r.Some? ==> r.value != [] && '\n' !in r.value
  {
    match LineTail(s, p)
    case Some(c) => Some(c)
    case None => if p - 1 > start then TailFrom(s, start, p - 1) else None
  }

  /** The feedback pattern: the rating and the comment, when the text matches. */
  function Feedback(s: string): (r: Option<(int, string)>)
    ensures r.Some? ==> 1 <= r.value.0 <= 5 && r.value.1 != [] && '\n' !in r.value.1
  {
    var l := LeadingSpaces(s);
    if l < |s| && '1' <= s[l] <= '5' then
      var e := l + 1 + SpaceRun(s, l + 1);
      if e > l + 1 then
        match TailFrom(s, l + 1, e)
        case Some(c) => Some((s[l] as int - '0' as int, c))
        case None => None
      else None
    else None
  }

  /** Trying earlier starts cannot succeed once the rest of the text holds a
      newline that does not end it. */
  lemma {:induction false} TailFromFails(s: string, start: nat, p: nat, q: nat)
    requires start < p <= q < |s| - 1 && s[q] == '\n'
    ensures TailFrom(s, start, p) == None
  {
    assert s[p..][q - p] == '\n';
    assert s[p..][..|s[p..]| - 1][q - p] == '\n';
    if p - 1 > start {
      TailFromFails(s, start, p - 1, q);
    }
  }

  /** When the text does not end in whitespace, the backtracking search for
      the comment succeeds exactly when the rest of the text holds no newline,
      and the comment is then that rest. */
  lemma TailOfStripped(s: string, e: nat)
    requires 1 < e < |s| && !IsSpace(s[|s| - 1])
    ensures TailFrom(s, 1, e) == (if '\n' in s[e..] then None else Some(s[e..]))
  {
    if '\n' in s[e..] {
      var x :| 0 <= x < |s[e..]| && s[e..][x] == '\n';
      assert s[e + x] == '\n';
      TailFromFails(s, 1, e, e + x);
    } else {
      assert LineTail(s, e) == Some(s[e..]);
    }
  }

  /** On a stripped text the pattern means: a rating digit 1-5, whitespace,
      and a comment on one line, which is the rest of the text. */
  lemma FeedbackOnStrippedText(s: string)
    requires s != [] && !IsSpace(s[0]) && !IsSpace(s[|s| - 1])
    ensures var e := if |s| > 1 then 1 + SpaceRun(s, 1) else 1;
      Feedback(s) == (if '1' <= s[0] <= '5' && e > 1 && e < |s| && '\n' !in s[e..]
                      then Some((s[0] as int - '0' as int, s[e..]))
                      else None)
  {
    assert LeadingSpaces(s) == 0;
    if |s| > 1 && '1' <= s[0] <= '5' {
      var e := 1 + SpaceRun(s, 1);
      if e > 1 {
        assert s[1..e][e - 2] == s[e - 1];
        assert e < |s|;
        TailOfStripped(s, e);
      }
    } else if |s| == 1 {
      assert SpaceRun(s, 1) == 0;
    }
  }

  /** "3 great bot" is feedback with rating 3 and comment "great bot". */
  lemma FeedbackExample(t: string)
    requires t == "3 great bot"
    ensures Feedback(t) == Some((3, "great bot"))
  {
    assert SpaceRun(t, 2) == 0;
    assert SpaceRun(t, 1) == 1;
    assert t[2..] == "great bot";
    FeedbackOnStrippedText(t);
  }

  /** A rating outside 1-5 is not feedback. */
  lemma RatingOutOfRangeExample(t: string)
    requires t == "7 great bot"
    ensures Feedback(t) == None
  {
    FeedbackOnStrippedText(t);
  }

  // ---------------------------------------------------------------------
  // The session-reading branches

  /** `faq_map.get(faq_id)`, with `faq_map = {int(r.id): r for r in rows}`:
      the last row with that id. */
  function FindFaq(rows: seq<FaqRow>, id: int): (r: Option<FaqRow>)
    ensures r.None? <==> forall k :: 0 <= k < |rows| ==> rows[k].id != id
    ensures r.Some? ==> exists k :: 0 <= k < |rows| && rows[k] == r.value && r.value.id == id
                                    && forall j :: k < j < |rows| ==> rows[j].id != id
  {
    if rows == [] then None
    else if rows[|rows| - 1].id == id then Some(rows[|rows| - 1])
    else FindFaq(rows[..|rows| - 1], id)
  }

  /** The remembered value after a truthy entity of this turn, if any,
      overwrote it. */
  function Remember(prev: Option<string>, seen: Option<string>): Option<string> {
    if Present(seen) then seen else prev
  }

  /** A remembered value taken from the merged slots when that slot is truthy. */
  function RememberSlot(prev: Option<string>, slots: map<string, string>, name: string): Option<string> {
    if Filled(slots, name) then Some(slots[name]) else prev
  }

  /** The FAQ answer branch. */
  function FaqStep(env: Env, ctx: Session, a: Analysis): Step
    requires a.faqId.Some?
  {
    var answer := match FindFaq(env.db.faqs, a.faqId.value)
                  case Some(row) => row.answer
                  case None => NoAnswer;
    Step("[Possible answer] (confidence " + env.fixed2(a.confidence) + ")\n" + answer,
         [Logged("out", answer, Some("faq"), a.confidence)],
         ctx.(lastCourse := Remember(ctx.lastCourse, a.entities.course),
              lastAssignment := Remember(ctx.lastAssignment, a.entities.assignment)))
  }

  /** Slot filling or execution of a `schedule`/`deadline` request. */
  function SlotStep(env: Env, ctx: Session, intent: string, ents: Entities): Step {
    var r := Resolve(ctx, intent, ents);
    if r.missing != {} then
      ResolvePrompt(ctx, intent, ents);
      Step(r.prompt.value, [Logged("out", r.prompt.value, Some("ask_slot"), 1.0)],
           ctx.(pendingIntent := Some(intent), slots := r.merged))
    else
      var reply := HandleIntent(env.db, ctx, intent, r.merged);
      Step(reply, [Logged("out", reply, Some(intent), 1.0)],
           ctx.(lastCourse := RememberSlot(ctx.lastCourse, r.merged, CourseSlot),
                lastAssignment := RememberSlot(ctx.lastAssignment, r.merged, AssignmentSlot),
                pendingIntent := None,
                slots := map[]))
  }

  /** An assignment with a remembered course, promoted to a `deadline`
      request. Only the assignment is remembered afterwards; the prompt case
      is kept as written, without a log record, although it cannot occur. */
  function AutoDeadlineStep(env: Env, ctx: Session, ents: Entities): Step {
    var r := Resolve(ctx, "deadline", ents);
    if r.missing != {} then
      ResolvePrompt(ctx, "deadline", ents);
      Step(r.prompt.value, [], ctx.(pendingIntent := Some("deadline"), slots := r.merged))
    else
      var reply := HandleIntent(env.db, ctx, "deadline", r.merged);
      Step(reply, [Logged("out", reply, Some("deadline"), 1.0)],
           ctx.(lastAssignment := RememberSlot(ctx.lastAssignment, r.merged, AssignmentSlot),
                pendingIntent := None,
                slots := map[]))
  }

  function FallbackStep(ctx: Session): Step {
    Step(Fallback, [Logged("out", Fallback, Some("fallback"), 0.0)], ctx)
  }

  /** The intent a turn works on: the detected one, else the pending one. */
  function CurrentIntent(ctx: Session, a: Analysis): Option<string> {
    if Present(a.intent) then a.intent else ctx.pendingIntent
  }

  predicate IsSlotIntent(intent: Option<string>) {
    intent == Some("schedule") || intent == Some("deadline")
  }

  /** Everything after the session is loaded. */
  function DialogStep(env: Env, ctx: Session, a: Analysis): Step {
    if a.intent == Some("faq") && a.faqId.Some? then FaqStep(env, ctx, a)
    else
      var current := CurrentIntent(ctx, a);
      if IsSlotIntent(current) then SlotStep(env, ctx, current.value, a.entities)
      else if Present(a.entities.course) && !Present(a.entities.assignment) then
        Step(Clarify, [Logged("out", Clarify, Some("clarify_next"), 1.0)],
             ctx.(lastCourse := a.entities.course, pendingIntent := None, slots := map[]))
      else if Present(a.entities.assignment) && Present(ctx.lastCourse) then
        AutoDeadlineStep(env, ctx, a.entities)
      else FallbackStep(ctx)
  }

  /** The menu replies; "Reset" writes the default session, the others leave
      the store alone. */
  function MenuTurn(env: Env, store: Option<Session>, text: string, action: MenuAction): Outcome {
    match action
    case MenuFaqs =>
      Outcome(Some(if env.db.faqs == [] then NoFaqs else Join("\n", FaqLines(env.db.faqs))),
              [Logged("in", text, Some("menu_faq"), 1.0)], store)
    case MenuSchedule => Outcome(Some(AskCourse), [Logged("in", text, Some("menu_schedule"), 1.0)], store)
    case MenuDeadlines =>
      Outcome(Some(AskCourseAndAssignment), [Logged("in", text, Some("menu_deadline"), 1.0)], store)
    case MenuHelp => Outcome(Some(HelpText), [Logged("in", "/help", Some("help"), 1.0)], store)
    case MenuReset => Outcome(Some(ResetText), [], Some(DefaultSession))
  }

  /** The stripped text of a message. */
  function TextOf(raw: Option<string>): string {
    Strip(if raw.Some? then raw.value else "")
  }

  /** The session `get_session` returns: the stored one, or the default it creates. */
  function Load(store: Option<Session>): Session {
    if store.Some? then store.value else DefaultSession
  }

  /** A message that is neither a menu literal nor feedback: it is analysed
      and logged, and the dialogue runs on the loaded session. */
  function DialogueTurn(env: Env, store: Option<Session>, text: string): Outcome {
    var a := Analyze(env.nlu, text);
    var step := DialogStep(env, Load(store), a);
    Outcome(Some(step.reply), [Logged("in", text, a.intent, a.confidence)] + step.log, Some(step.session))
  }

  /** The handling of a message by its stripped text: a menu literal, then
      the feedback pattern, then the dialogue. */
  function TextTurn(env: Env, store: Option<Session>, text: string): Outcome {
    match MenuOf(text)
    case Some(action) => MenuTurn(env, store, text, action)
    case None =>
      match Feedback(text)
      case Some(fb) =>
        Outcome(Some(Thanks), [FeedbackEntry(fb.0, fb.1), Logged("in", text, Some("feedback"), 1.0)], store)
      case None => DialogueTurn(env, store, text)
  }

  /** One turn of `handle_text`. */
  function Turn(env: Env, store: Option<Session>, inbound: Inbound): Outcome {
    match inbound
    case NoMessage => Outcome(None, [], store)
    case Message(raw) => TextTurn(env, store, TextOf(raw))
  }

  /** The slot path of `handle_text`: ask for what is missing, remembering
      the request, or answer it and clear the pending state. */
  method FillOrRun(env: Env, ctx: Session, intent: string, ents: Entities)
    returns (reply: string, log: seq<Record>, next: Session)
    requires intent == "schedule" || intent == "deadline"
    ensures Step(reply, log, next) == SlotStep(env, ctx, intent, ents)
  {
    next := ctx;
    var merged, missing, prompt, _ := ResolveSlots(ctx, intent, ents);
    if missing != {} {
      ResolvePrompt(ctx, intent, ents);
      next := next.(pendingIntent := Some(intent));
      next := next.(slots := merged);
      log := [Logged("out", prompt.value, Some("ask_slot"), 1.0)];
      reply := prompt.value;
      return;
    }
    reply := HandleIntent(env.db, ctx, intent, merged);
    log := [Logged("out", reply, Some(intent), 1.0)];
    if Filled(merged, CourseSlot) {
      next := next.(lastCourse := Some(merged[CourseSlot]));
    }
    if Filled(merged, AssignmentSlot) {
      next := next.(lastAssignment := Some(merged[AssignmentSlot]));
    }
    next := next.(pendingIntent := None);
    next := next.(slots := map[]);
  }

  /** The auto-promotion of an assignment with a remembered course to a
      `deadline` request. */
  method PromoteDeadline(env: Env, ctx: Session, ents: Entities)
    returns (reply: string, log: seq<Record>, next: Session)
    ensures Step(reply, log, next) == AutoDeadlineStep(env, ctx, ents)
  {
    next := ctx;
    var merged, missing, prompt, _ := ResolveSlots(ctx, "deadline", ents);
    if missing != {} {
      ResolvePrompt(ctx, "deadline", ents);
      next := next.(pendingIntent := Some("deadline"));
      next := next.(slots := merged);
      log := [];
      reply := prompt.value;
      return;
    }
    reply := HandleIntent(env.db, ctx, "deadline", merged);
    log := [Logged("out", reply, Some("deadline"), 1.0)];
    if Filled(merged, AssignmentSlot) {
      next := next.(lastAssignment := Some(merged[AssignmentSlot]));
    }
    next := next.(pendingIntent := None);
    next := next.(slots := map[]);
  }

  /** Everything `handle_text` does once the context is loaded. */
  method Converse(env: Env, ctx: Session, a: Analysis)
    returns (reply: string, log: seq<Record>, next: Session)
    ensures Step(reply, log, next) == DialogStep(env, ctx, a)
  {
    next := ctx;
    var ents := a.entities;

    // Direct FAQ answer
    if a.intent == Some("faq") && a.faqId.Some? {
      var row := FindFaq(env.db.faqs, a.faqId.value);
      var answer := if row.Some? then row.value.answer else NoAnswer;
      log := [Logged("out", answer, Some("faq"), a.confidence)];
      reply := "[Possible answer] (confidence " + env.fixed2(a.confidence) + ")\n" + answer;
      if Present(ents.course) {
        next := next.(lastCourse := ents.course);
      }
      if Present(ents.assignment) {
        next := next.(lastAssignment := ents.assignment);
      }
      return;
    }

    // Business intents, or continuation of the pending one
    var current := if Present(a.intent) then a.intent else ctx.pendingIntent;
    if current == Some("schedule") || current == Some("deadline") {
      reply, log, next := FillOrRun(env, ctx, current.value, ents);
      return;
    }

    // Entities without an intent: guide the user
    if Present(ents.course) && !Present(ents.assignment) {
      next := next.(lastCourse := ents.course);
      next := next.(pendingIntent := None);
      next := next.(slots := map[]);
      log := [Logged("out", Clarify, Some("clarify_next"), 1.0)];
      reply := Clarify;
      return;
    }
    if Present(ents.assignment) && Present(ctx.lastCourse) {
      reply, log, next := PromoteDeadline(env, ctx, ents);
      return;
    }

    // Fallback
    log := [Logged("out", Fallback, Some("fallback"), 0.0)];
    reply := Fallback;
  }

  /** `handle_text`: menu literals, then feedback, then the NLU-driven dialogue. */
  method HandleText(env: Env, store: Option<Session>, inbound: Inbound)
    returns (reply: Option<string>, log: seq<Record>, saved: Option<Session>)
    ensures Outcome(reply, log, saved) == Turn(env, store, inbound)
  {
    reply, log, saved := None, [], store;
    if inbound.NoMessage? {
      return;
    }
    var text := TextOf(inbound.text);

    // Menu actions
    var menu := MenuOf(text);
    if menu.Some? {
      match menu.value {
        case MenuFaqs =>
          log := [Logged("in", text, Some("menu_faq"), 1.0)];
          var listing := FormatFaqList(env.db.faqs);
          reply := Some(listing);
        case MenuSchedule =>
          log := [Logged("in", text, Some("menu_schedule"), 1.0)];
          reply := Some(AskCourse);
        case MenuDeadlines =>
          log := [Logged("in", text, Some("menu_deadline"), 1.0)];
          reply := Some(AskCourseAndAssignment);
        case MenuHelp =>
          log := [Logged("in", "/help", Some("help"), 1.0)];
          reply := Some(HelpText);
        case MenuReset =>
          saved := Some(DefaultSession);
          reply := Some(ResetText);
      }
      return;
    }

    // Feedback pattern
    var fb := Feedback(text);
    if fb.Some? {
      log := [FeedbackEntry(fb.value.0, fb.value.1), Logged("in", text, Some("feedback"), 1.0)];
      reply := Some(Thanks);
      return;
    }

    // NLU, then the context-dependent dialogue
    var a := Analyze(env.nlu, text);
    var ctx := Load(store);
    var answer, more, next := Converse(env, ctx, a);
    log := [Logged("in", text, a.intent, a.confidence)] + more;
    reply := Some(answer);
    saved := Some(next);
  }
}
