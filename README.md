# Educational assistant bot: the dialogue core

A Dafny model of the per-message logic of a Telegram bot that answers
course questions. The bot handles FAQs, course schedules and assignment
deadlines. The model covers three layers.

- **Slot resolution and intent execution** (`dialog.py`, module `Dialog`).
  `resolve_slots` merges this turn's entities with the session's remembered
  course and assignment and its partial slots. It then reports the required
  slots that are still missing, with one of three fixed prompts.
  `handle_intent` renders the reply of a complete `schedule` or `deadline`
  request from two table lookups.
- **Natural-language understanding** (`nlu.py`, module `Nlu`).
  - Entity extraction is modelled by hand over strings, for the course-code
    pattern `\b(\d{3}\.\d{3})\b` and the assignment pattern
    `\b(?:A(?:ssignment)?\s*\d+|A\d+)\b` (case-insensitive), with the
    normalisation of the matched assignment.
  - The rule-based intent detector: its construction from stored rows and
    its first-match scan.
  - The selection step of the FAQ retriever: first maximum, then threshold.
  - `NLU.analyze`, which gives rule intents priority over FAQ retrieval.
- **The turn** (`chatbot_edu.py` `handle_text`, module `Chatbot`, with
  properties in `ChatbotLemmas`). The stripped text is tried against the
  menu literals, then the feedback pattern `^\s*([1-5])\s+(.+)$`, then a FAQ
  answer, then slot filling or execution of a `schedule`/`deadline` request
  (detected or pending), then entity-only guidance (a lone course, or an
  assignment promoted to a deadline request when a course is remembered),
  and finally the fallback. A turn is stated twice:
  - as the specification function `Turn`, built from the branch functions
    `MenuTurn`, `DialogStep`, `SlotStep`, `AutoDeadlineStep` and so on;
  - as the imperative methods `HandleText`, `Converse`, `FillOrRun` and
    `PromoteDeadline`, which update the context field by field as the source
    does and are proved equal to the functions.

The database (`db.py`) becomes values (module `Data`):
- FAQ rows;
- schedule and deadline tables as maps;
- the session context as a record `Session(pendingIntent, slots, lastCourse, lastAssignment)`;
- the store as `Option<Session>`, where `None` means no row yet.

A turn's effects are the reply sent, the records appended to the message and
feedback logs, in order, and the session row left in the store. The session
invariant `ChatbotLemmas.WellFormed` is proved to be kept by every turn. It
says:
- a pending request is a `schedule` or `deadline` still missing a slot;
- there are no slots without a pending request;
- slots are only `course` and `assignment`, and never empty;
- remembered values are never empty.

Behaviour of the source that the model keeps as written:
- `resolve_slots` writes inherited values into the caller's entity dictionary.
  This is the `updated` result of `Dialog.ResolveSlots`.
- Detected intents other than `schedule` and `deadline` never reach the slot
  path.
- The prompt case of the assignment auto-promotion is kept, but it can never
  occur (`ChatbotLemmas.AutoPromotionAnswersDeadline`).
- The auto-promotion remembers only the assignment.
- The "Schedule" and "Deadlines" menu replies leave nothing pending. So
  "158.780 A1" sent after "Deadlines" to a fresh session, without a rule or
  FAQ match, falls back (`ChatbotLemmas.BothAfterDeadlineMenuFallsBack`).

Python's truthiness of an optional string is `Data.Present` (present and
non-empty).

## Model

| member | source | states |
|---|---|---|
| Text.Strip | chatbot_edu.py:65 | the stripped text is the slice of the message between a whitespace prefix and a whitespace suffix; it is empty exactly when the message is all whitespace, and otherwise neither starts nor ends with whitespace |
| Text.StripIdempotent | nlu.py:48 | stripping the already stripped message again, as `detect` does, changes nothing |
| Text.RemoveChar | nlu.py:65 | removing spaces leaves no space and never lengthens the text |
| Text.RemoveCharCounts | nlu.py:65 | removing spaces drops every space and keeps every other character as often as it occurred |
| Dialog.MissingList | dialog.py:31 | a slot is in the missing list exactly when it is required and not truthy in the merged slots |
| Dialog.ResolveSlots | dialog.py:10-43 | the copy-inherit-merge-report procedure returns exactly `Resolve`, and the caller's entity dictionary afterwards holds the remembered course/assignment in the keys left empty |
| Dialog.MergeSlots | dialog.py:25-28 | the merge loop writes each truthy entity under its key, keeps every other key's value and adds no other key |
| Dialog.ResolveMergedSlots | dialog.py:17-28 | a course or assignment left out this turn is taken from memory; a truthy one of this turn lands in the merged slots; other session slots keep their values; the only new keys are the two slot names |
| Dialog.ResolveMissing | dialog.py:31-43 | the missing set is exactly the required slots not filled after the merge; it is empty iff all required slots are filled; an intent outside the table misses nothing and has no prompt |
| Dialog.ResolvePrompt | dialog.py:32-42 | the prompt is the exact text for a missing course, a missing assignment, or both, and there is a prompt exactly when something is missing |
| Dialog.ResolveIdempotent | dialog.py:17-31 | feeding the merged slots back in as the session's slots, with the same entities and memory, gives the same merged slots, missing set and prompt |
| Dialog.DeadlineCompleteWithMemory | dialog.py:20-31 | with a remembered course and an assignment named this turn, a deadline request misses nothing, and its course is this turn's or the remembered one |
| Dialog.ScheduleReply | dialog.py:53-57 | a found schedule record gives the title/details reply and a miss gives the apology naming the course; the reply starts with "Schedule for " exactly when the record exists |
| Dialog.DeadlineReply | dialog.py:59-63 | a found deadline record gives the due date and submission channel and a miss gives the apology naming both; the reply starts with "Deadline for " exactly when the record exists |
| Dialog.HandleIntentOtherwise | dialog.py:45-65 | the reply never depends on the session passed in, and any intent other than schedule/deadline gets "Let me double-check that." |
| Nlu.FindCourse | nlu.py:11 | the course search returns the leftmost start of a word-bounded `ddd.ddd`, or None when there is none |
| Nlu.CourseIsFirstMatch | nlu.py:55-60 | the extracted course is the text of the first course-code match, and None exactly when no position matches |
| Nlu.FindAssignNotBefore | nlu.py:63 | no assignment match starts before the position the search returns, or anywhere when it returns nothing |
| Nlu.AssignmentIsFirstMatch | nlu.py:62-65 | the extracted assignment is the normalised text of the first assignment match, and None exactly when no position matches |
| Nlu.NormalizeMatch | nlu.py:65 | the normalised match is "A", then the whitespace run with its spaces removed, then the digits, whether the match was spelled "A" or "Assignment" in any case |
| Nlu.LongFormExample | nlu.py:62-65 | "Assignment 1" gives the assignment "A1" |
| Nlu.LowerCaseExample | nlu.py:62-65 | "a1" gives the assignment "A1" |
| Nlu.SpacedExample | nlu.py:62-65 | "A 1" gives the assignment "A1" |
| Nlu.CourseExample | nlu.py:55-67 | "158.780 A1" gives both entities |
| Nlu.CourseOnlyExample | nlu.py:55-67 | "158.780" gives the course and no assignment |
| Nlu.AssignmentOnlyExample | nlu.py:55-67 | "A1 deadline?" gives the assignment and no course |
| Nlu.NoCourseInLongerNumber | nlu.py:11 | no course is found inside the longer number "1158.780" |
| Nlu.NoLetterNoAssignment | nlu.py:13 | text without a letter a/A names no assignment |
| Nlu.NoDotNoCourse | nlu.py:11 | text without a dot names no course |
| Nlu.BuildRules | nlu.py:38-45 | construction fails exactly when some stored pattern does not compile; otherwise there is one rule per row in retrieval order, whose patterns are the decoded list, or empty when the row is NULL/empty or does not decode |
| Nlu.Detect | nlu.py:47-53 | the nested scan returns exactly the first-match label on the stripped text |
| Nlu.FirstMatchAt | nlu.py:49-52 | a firing rule with no earlier firing rule is the one whose label is returned |
| Nlu.FirstMatchWitness | nlu.py:49-52 | a returned label belongs to a firing rule with no earlier firing rule |
| Nlu.FirstMatchIsEarliest | nlu.py:49-53 | a label is returned exactly when a rule of that label fires and no earlier rule does |
| Nlu.FirstMatchNone | nlu.py:49-53 | nothing is returned exactly when no rule fires |
| Nlu.ArgMax | nlu.py:29 | the index is a maximum of the scores with every earlier score strictly smaller |
| Nlu.Search | nlu.py:23-34 | an empty corpus gives (None, 0.0); otherwise the score is the first maximum, and its row id is returned exactly when that score reaches the threshold |
| Nlu.AnalyzeRouting | nlu.py:75-86 | entities are attached in every branch; a rule label wins with confidence 1.0 whatever the retriever would say; otherwise the retriever's id and score are passed through: a hit is labelled "faq" with exactly the retriever's id and score (at or above the threshold, the id of a stored row), and a miss is (None, None, 0.0) |
| Chatbot.FaqLines | chatbot_edu.py:20-23 | the listing has a header and one line for each of at most ten rows |
| Chatbot.FormatFaqList | chatbot_edu.py:16-24 | the append loop gives "No FAQs available yet." for no rows, and otherwise the newline-joined header and bullets of the first ten questions |
| Chatbot.FaqListingIsFirstTen | chatbot_edu.py:20-23 | at most ten questions are listed: with ten rows or more there are exactly eleven lines, and line k+1 is the bullet of question k for every k below ten |
| Chatbot.Feedback | chatbot_edu.py:83-84 | a match yields a rating from 1 to 5 and a non-empty comment on one line |
| Chatbot.FeedbackOnStrippedText | chatbot_edu.py:83-84 | on a stripped text, the pattern matches exactly when the text is a digit 1-5, whitespace, and a comment without a newline; the comment is the rest of the text |
| Chatbot.FeedbackExample | chatbot_edu.py:83-84 | "3 great bot" is feedback with rating 3 and comment "great bot" |
| Chatbot.RatingOutOfRangeExample | chatbot_edu.py:83 | "7 great bot" is not feedback |
| Chatbot.FindFaq | chatbot_edu.py:101-103 | the lookup by id finds nothing exactly when no row has that id, and otherwise the last row with that id |
| Chatbot.FillOrRun | chatbot_edu.py:116-135 | the field-by-field updates of the slot path produce exactly `SlotStep` |
| Chatbot.PromoteDeadline | chatbot_edu.py:148-164 | the field-by-field updates of the auto-promotion produce exactly `AutoDeadlineStep` |
| Chatbot.Converse | chatbot_edu.py:99-174 | the branches after the session is loaded produce exactly `DialogStep` |
| Chatbot.HandleText | chatbot_edu.py:59-174 | the whole handler produces exactly the reply, records and store of `Turn` |
| ChatbotLemmas.MenuComesFirst | chatbot_edu.py:67-80 | a menu literal is answered without consulting the NLU, with at most one inbound record; only Reset writes the store, with the default session |
| ChatbotLemmas.FeedbackLeavesSession | chatbot_edu.py:82-88 | feedback appends the rating/comment record and the inbound record, replies with the thanks, leaves the store as it was, and does not depend on the NLU or the session |
| ChatbotLemmas.DialogueTurnLogsInbound | chatbot_edu.py:90-97 | past the menu and feedback, the first record is the inbound message with the analysed intent and confidence, and a session row exists afterwards |
| ChatbotLemmas.FaqAnswerKeepsPending | chatbot_edu.py:100-111 | a FAQ answer carries the formatted confidence and the answer or the apology; pending request and slots are unchanged; memory changes only for truthy entities of this turn |
| ChatbotLemmas.MissingShapes | dialog.py:32-42 | for schedule and deadline, a non-empty missing set is one of the three shapes that have a prompt |
| ChatbotLemmas.SlotPathOutcome | chatbot_edu.py:113-135 | an incomplete request is left pending with the merged slots and the reply is `resolve_slots`' prompt for exactly the missing slots (course, assignment, or both); a complete one is answered, memory is set from the truthy merged slots, and the pending state is cleared |
| ChatbotLemmas.PendingOnlyWithoutIntent | chatbot_edu.py:114 | with a detected intent, the reply and the records do not depend on the pending request |
| ChatbotLemmas.CourseOnlyClarifies | chatbot_edu.py:138-147 | a lone course with no intent to serve is remembered, the pending state is cleared, the assignment memory is kept, and the clarifying question is sent |
| ChatbotLemmas.AutoPromotionAnswersDeadline | chatbot_edu.py:148-164 | an assignment with a remembered course is answered as a deadline at once, for this turn's course or the remembered one; only the assignment is remembered afterwards and nothing stays pending |
| ChatbotLemmas.FallbackWritesNothing | chatbot_edu.py:166-174 | otherwise the fallback text is sent with confidence 0.0 and the session is unchanged |
| ChatbotLemmas.MergedSlotsWellFormed | dialog.py:26-28 | merging into well-formed slots keeps to the two slot names and never stores an empty value |
| ChatbotLemmas.SlotStepKeepsWellFormed | chatbot_edu.py:116-135 | slot filling keeps the session invariant |
| ChatbotLemmas.AutoDeadlineKeepsWellFormed | chatbot_edu.py:148-164 | the auto-promotion keeps the session invariant |
| ChatbotLemmas.DialogStepKeepsWellFormed | chatbot_edu.py:99-174 | every branch after the session is loaded keeps the session invariant |
| ChatbotLemmas.TextTurnKeepsWellFormed | chatbot_edu.py:65-174 | every handling of a message keeps the stored session well formed |
| ChatbotLemmas.TurnKeepsWellFormed | chatbot_edu.py:59-174 | every turn keeps the stored session well formed |
| ChatbotLemmas.CourseCodeTurn | chatbot_edu.py:138-147 | a message naming only a course, with no rule intent and no FAQ hit, in a fresh session, gets the clarifying question and leaves the course remembered |
| ChatbotLemmas.AssignmentWithMemoryStep | chatbot_edu.py:113-164 | an assignment alone, with no intent or a deadline intent, a remembered course and nothing pending, is answered for that course by either path, and both values are remembered |
| ChatbotLemmas.AssignmentQuestionTurn | chatbot_edu.py:113-164 | the same for a message whose text names only an assignment, with a remembered course and nothing pending |
| ChatbotLemmas.CourseCodeText | chatbot_edu.py:68-93 | "158.780" is neither a menu literal nor feedback, and names only the course |
| ChatbotLemmas.AssignmentQuestionText | chatbot_edu.py:68-93 | "A1 deadline?" is neither a menu literal nor feedback, and names only the assignment |
| ChatbotLemmas.CourseAndAssignmentText | chatbot_edu.py:68-93 | "158.780 A1" is neither a menu literal nor feedback, and names both |
| ChatbotLemmas.RememberedCourseConversation | chatbot_edu.py:138-164 | "158.780" then "A1 deadline?", with no intent for the first message and no intent or the deadline intent for the second: the second message is answered for the course the first one left in memory, the multi-turn use the `/start` greeting describes (chatbot_edu.py:34) |
| ChatbotLemmas.FeedbackConversation | chatbot_edu.py:82-88 | "3 great bot" is stored as feedback with rating 3 and the store is untouched |
| ChatbotLemmas.DeadlineMenuLeavesNothingPending | chatbot_edu.py:74-76 | "Deadlines" asks for a course and an assignment, logs the menu record and leaves the store as it was |
| ChatbotLemmas.BothAfterDeadlineMenuFallsBack | chatbot_edu.py:137-174 | "158.780 A1" in a fresh session, with no rule or FAQ match, falls back and leaves the default session |
| ChatbotLemmas.CourseAndAssignmentFallBack | chatbot_edu.py:137-174 | a course and an assignment together, with no intent, in a fresh session, fall back: only a remembered course lets an assignment through |

## Left out

- Telegram transport, `/start`, the command handlers' registration, `main`, polling and `error_handler`: these are I/O. The "Help" and "Reset" menu literals are modelled by the effects of `help_cmd` and `reset_cmd`.
- The user row (`get_or_create_user`) and the message id returned by `log_message`: the turn's behaviour does not depend on them.
- `db.py` storage (SQLAlchemy, SQLite, JSON serialisation of the context): the tables are maps, and the session is a record in an `Option` store. A context read back from JSON is assumed to have the four fields of the default one.
- TF-IDF vectorisation and cosine similarity: `similarity(query, document)` is a parameter of the retriever. Python float semantics (NaN and rounding) are not modelled; scores are `real`.
- The `{conf:.2f}` formatting: a parameter of the turn.
- `FAQ_SIM_THRESHOLD` from `config.py`: a parameter of the engine.
- The regular-expression engine for stored intent patterns: `search(pattern, text)` and `compiles(pattern)` are parameters. `json.loads` is a parameter returning a list of strings or a decoding failure; JSON values that decode to something other than a list of strings are not modelled.
- The lazily created global NLU object: the engine is passed into each turn. Concurrency between turns is out of scope.
- `Text.IsDigit`: `\d` is restricted to ASCII digits, because Unicode digit classes are not modelled.
- `Text.IsWordChar`: `\w` (and so `\b`) is restricted to ASCII letters, digits and `_`.
- `Nlu.AssignmentWordAt`: case-insensitive matching covers ASCII case pairs only, not Unicode case folding such as the long s.
- `Text.UpperAscii`: upper-cases ASCII letters only, and its contract states only the length. An assignment match holds only letters of "assignment", whitespace and digits, which `Nlu.NormalizeMatch` covers exactly.
