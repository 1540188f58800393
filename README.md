# Roadmap backend: parser, assessment mapper, retry limiter and roadmap generation

This project models the core logic of the roadmap backend, a Django service.
Users take a fifteen-question personality assessment. They keep a profile and
set goals. A generative model writes a one-year roadmap for each goal. The
model covers five parts:

- **Roadmap response parser** (`parse_gemini_roadmap_response`). It cuts the
  model's free-text reply into five milestones (Start, 3, 6, 9 and 12 months)
  and a full plan.
  - It searches for fixed markers, case-insensitively, with `.` matching newlines.
  - Every field defaults to "" and is stripped of surrounding whitespace.
  - It is a total function on strings (module `RoadmapParser`).
  - It is built on a case-insensitive leftmost search, lazy field ends and
    `str.strip()` (module `Text`).
- **Question catalog** (`questions_data`). It is fifteen constant questions,
  each of one profile dimension with four answer values (module `Catalog`).
- **Assessment submission** (`submit_assessment`), in module `Assessment`.
  - It folds the submitted `(question, letter)` answers into a map over the
    fifteen dimension keys.
  - It deletes and recreates the user's answer rows.
  - It merges the non-empty mapped values into the stored profile.
  - The loops are methods (`AnswerLoop`, `UpdateProfile`) proved against the
    functions `Fold` and `Patched`.
  - The request is a method of the class `UserAssessment`, which holds the
    user's answer rows and profile.
- **Profile-edit retry limiter** (`view_or_edit_profile`), in module `ProfileEdit`.
  - It keeps two session values.
  - After five failed form posts, further posts are refused.
  - The refusal lasts until ten minutes have passed since the last attempt.
  - The session is the class `ProfileSession`, and its request handler is
    proved against the transition function `Next`.
- **Roadmap generation** (`generate_roadmap`), in module `RoadmapGeneration`.
  - It runs an ordered chain of checks, then summarises the stored answers.
  - It calls the generative model, which is an opaque, possibly failing
    function parameter.
  - It parses the reply and overwrites the six roadmap fields of the goal.
  - Goals are objects of the class `Goal`, whose fields the method assigns.

Behaviour of the code that the model keeps on purpose:

- The full plan is the text after the FIRST `Full Plan:` marker, because
  `re.search` returns the leftmost match (views.py:443).
- An unknown question id returns 400 after the user's old answer rows were
  deleted (views.py:280). The rows created for earlier answers remain, and
  only the profile is untouched. `SubmitAssessment` states exactly this.
- A new profile gets only the non-empty mapped values (views.py:329-332).
  Its other fields take the model field default, "". `Assessment.Created`
  gives them "".
- A missing profile in `generate_roadmap` is answered with status 400
  (views.py:497-500), as `RoadmapGeneration.Status` gives it.

The clock of the retry limiter is an integer count of microseconds, the
resolution of the timestamps the session stores. Ten minutes is 600000000.

## Model

| member | source | states |
|---|---|---|
| Text.FindFirst | roadmap_backend/roadmap/views.py:437-462 | the case-insensitive leftmost search each `re.search` performs for a literal marker; a found position lies at or after the start and the marker fits before the end; characterised by `FindFirstSpec` and `FindFirstIs` |
| Text.FieldEnd | roadmap_backend/roadmap/views.py:449-459 | where a lazy group followed by a lookahead over the later labels or `$` stops; it lies between the start and the end; characterised by `FieldEndSpec` and `FieldEndUnique` |
| Text.StripSlice | roadmap_backend/roadmap/views.py:440 | `text[i..j].strip()`, the form of every `group(1).strip()` of the parser; characterised by `StripSliceSpec` |
| Text.Strip | roadmap_backend/roadmap/views.py:440 | `str.strip()` with no argument; characterised by `StripSpec` |
| RoadmapParser.Parse | roadmap_backend/roadmap/views.py:412-471 | `parse_gemini_roadmap_response`: the six fields, "" by default, the full plan from the whole reply and the milestones from the span when it is non-empty; characterised by `ParsedFieldsAreTrimmedSubstrings`, `FullPlanFollowsFirstMarker`, `MilestoneBetweenMarkers` and `NoFullPlanMeansEmpty` |
| RoadmapParser.FullPlanText | roadmap_backend/roadmap/views.py:443-445 | the stripped text after the first `Full Plan:`, or ""; characterised by `FullPlanTextAt` |
| RoadmapParser.MilestonesText | roadmap_backend/roadmap/views.py:437-440 | the stripped span between the first `Milestones:` and the next `Full Plan:`, or ""; characterised by `MilestoneSpanBetweenMarkers` and the two span-emptying lemmas |
| RoadmapParser.Milestone | roadmap_backend/roadmap/views.py:449-462 | one milestone search with its stop labels; characterised by `MilestoneOfSpan` |
| Catalog.DimensionKeys | roadmap_backend/roadmap/views.py:261-277 | the fifteen keys the mapper initialises, in order; characterised by `DimensionKeysDistinct` |
| Catalog.Questions | roadmap_backend/roadmap_backend/seed_questions.py:14-210 | the seeded catalog, question by question, without display text; characterised by `CatalogIds`, `CatalogDimensions`, `CatalogValues` and `CatalogDimensionsDistinct` |
| Assessment.Blank | roadmap_backend/roadmap/views.py:261-277 | the fifteen keys, each "", the map the answer loop starts from; `Run` keeps exactly its keys |
| Assessment.Resolve | roadmap_backend/roadmap/views.py:298-307 | the value an answer selects: exactly "a" to "d" pick `value_a` to `value_d`, anything else ""; characterised by `ResolveNonEmptyIff` and `ResolveInjective` |
| Assessment.Record | roadmap_backend/roadmap/views.py:309-311 | stores the selected value only under a dimension that is already a key; characterised by `UnknownDimensionIgnored` and `StepRecords` |
| Assessment.Step | roadmap_backend/roadmap/views.py:284-317 | one iteration of the answer loop: look up, create the row, record the value, or stop on an unknown or repeated question; characterised by `StepRecords`, `FirstUnknownStops` and `StoppedStays` |
| Assessment.Patched | roadmap_backend/roadmap/views.py:323-326 | the stored profile with each non-empty mapped value written over its field; characterised by `PatchWithBlanksKeeps`, `PatchWithFullMapReplaces` and `PatchIdempotent`, and computed by `UpdateProfile` |
| Assessment.Created | roadmap_backend/roadmap/views.py:329-332 | a new profile with the non-empty mapped values and "" elsewhere; characterised by `CreatedIsPatchedBlank` and `CreatedIsDims` |
| Assessment.Merged | roadmap_backend/roadmap/views.py:320-332 | patch the stored profile when there is one, otherwise create it; what `SubmitAssessment` stores after a clean run |
| ProfileEdit.Refreshed | roadmap_backend/roadmap/views.py:94-98 | the count reset to 0 when more than ten minutes have passed since the last attempt; characterised by `ResetAfterWindow` |
| ProfileEdit.Next | roadmap_backend/roadmap/views.py:89-116 | one request's effect on the session and the page's report; characterised by `BlockedIff`, `BlockedPostUnchanged`, `PostAccepted` and `NextInRange`, and computed by `ProfileSession.HandleRequest` |
| ProfileEdit.Replay | roadmap_backend/roadmap/views.py:89-116 | the session after a sequence of requests; characterised by `ReplayInRange`, `FailuresAccumulate` and `FiveFailuresBlock` |
| RoadmapGeneration.SummaryValue | roadmap_backend/roadmap/views.py:514-517 | the summary value of one answer: the `value_` field of its lower-cased letter when there is one, otherwise the answer as given; characterised by `SummaryAgreesOnLetters` and `SummaryDiffersOffLetters` |
| RoadmapGeneration.Summary | roadmap_backend/roadmap/views.py:507-518 | the answers by dimension, a later row replacing an earlier one; characterised by `SummaryKeys` and `SummaryLastWins`, and computed by `AssessmentSummary` |
| RoadmapGeneration.Precheck | roadmap_backend/roadmap/views.py:488-505 | the first failing check in source order; characterised by `ChecksComeFirst` |
| RoadmapGeneration.Respond | roadmap_backend/roadmap/views.py:488-572 | the response: a failed check, a failed model call (500), a failed save (500), or the parsed reply; characterised by `ChecksComeFirst`, `SuccessIsParsedReply` and `ReplyWithoutPlanClears`, and computed by `GenerateRoadmap` |
| Text.MatchesAtIff | roadmap_backend/roadmap/views.py:437 | a marker matches at a position exactly when every character agrees with it after ASCII lower-casing (the `re.IGNORECASE` comparison) |
| Text.FindFirstSpec | roadmap_backend/roadmap/views.py:437 | the search returns a position where the marker occurs with none earlier at or after the start, and fails only when the marker occurs nowhere after the start |
| Text.FindFirstIs | roadmap_backend/roadmap/views.py:443 | the first occurrence at or after the start is what the search returns |
| Text.FieldEndSpec | roadmap_backend/roadmap/views.py:449 | a lazy `(.*?)` followed by a lookahead for the stop markers or `$` ends at the earliest position where one of the stop markers occurs, or at the end of the text when none does |
| Text.FieldEndUnique | roadmap_backend/roadmap/views.py:449 | that end position is unique |
| Text.SkipSpaceSpec | roadmap_backend/roadmap/views.py:440 | the leading part `strip()` drops is whitespace, and it stops at a non-space character |
| Text.TrimEndSpec | roadmap_backend/roadmap/views.py:440 | the trailing part `strip()` drops is whitespace, and what is kept ends in a non-space character |
| Text.StripSliceStripped | roadmap_backend/roadmap/views.py:440 | a stripped slice neither starts nor ends with whitespace |
| Text.StripSliceOccurs | roadmap_backend/roadmap/views.py:440 | a stripped slice occurs in the text it was cut from |
| Text.StripSliceIsStripOf | roadmap_backend/roadmap/views.py:440 | a stripped slice is that slice minus exactly its leading and trailing whitespace |
| Text.StripSliceSpec | roadmap_backend/roadmap/views.py:440 | a stripped slice is stripped, is the slice minus its surrounding whitespace, and is a substring of the text |
| Text.StripSpec | roadmap_backend/roadmap/views.py:440 | `str.strip()` removes exactly the leading and trailing whitespace |
| Text.SubstringTransitive | roadmap_backend/roadmap/views.py:449-462 | a substring of the milestone span is a substring of the reply |
| RoadmapParser.ParseFullPlan | roadmap_backend/roadmap/views.py:443-445 | the full plan is filled whether or not a milestone span exists |
| RoadmapParser.ParseMilestone | roadmap_backend/roadmap/views.py:448-462 | milestone k is "" when the span is empty, and otherwise is searched for in the span with exactly the later labels as stop markers |
| RoadmapParser.NoFullPlanMeansEmpty | roadmap_backend/roadmap/views.py:426-447 | a reply with no case-insensitive `Full Plan:` yields all six fields "" |
| RoadmapParser.FullPlanFollowsFirstMarker | roadmap_backend/roadmap/views.py:443-445 | the full plan is the stripped text from just after the first `Full Plan:` to the end, with or without a `Milestones:` marker |
| RoadmapParser.FullPlanTextAt | roadmap_backend/roadmap/views.py:443-445 | the full-plan search result at the first marker is the stripped tail after it |
| RoadmapParser.MilestoneSpanBetweenMarkers | roadmap_backend/roadmap/views.py:437-440 | the span is the stripped text between the first `Milestones:` and the first `Full Plan:` after it |
| RoadmapParser.SpanFound | roadmap_backend/roadmap/views.py:437-440 | when both searches succeed, the span is the stripped text between them |
| RoadmapParser.NoMilestonesMarkerEmptiesSpan | roadmap_backend/roadmap/views.py:437-440 | without `Milestones:` the span is "" |
| RoadmapParser.NoFullPlanAfterMilestonesEmptiesSpan | roadmap_backend/roadmap/views.py:437-440 | without a `Full Plan:` after the first `Milestones:` the span is "" |
| RoadmapParser.EmptySpanEmptiesMilestones | roadmap_backend/roadmap/views.py:448 | an absent or empty span leaves all five milestones "" |
| RoadmapParser.MilestoneBetweenMarkers | roadmap_backend/roadmap/views.py:449-462 | milestone k is the stripped text after the first occurrence of its label, up to the earliest occurrence of any later label or the end of the span |
| RoadmapParser.MilestoneOfSpan | roadmap_backend/roadmap/views.py:449-459 | a milestone search runs from the end of the first marker occurrence to the field end |
| RoadmapParser.MilestoneFound | roadmap_backend/roadmap/views.py:449-459 | a found marker gives the stripped text up to the field end |
| RoadmapParser.TwelveMonthsRunsToEnd | roadmap_backend/roadmap/views.py:461-462 | `- 12 months:` always runs to the end of the span |
| RoadmapParser.MissingLabelEmptiesField | roadmap_backend/roadmap/views.py:449-462 | a label missing from the span empties that milestone only |
| RoadmapParser.MilestoneIsTrimmedSubstring | roadmap_backend/roadmap/views.py:449-462 | each milestone is stripped and a substring of the span |
| RoadmapParser.FullPlanIsTrimmedSubstring | roadmap_backend/roadmap/views.py:443-445 | the full plan is stripped and a substring of the reply |
| RoadmapParser.SpanIsTrimmedSubstring | roadmap_backend/roadmap/views.py:437-440 | the span is stripped and a substring of the reply |
| RoadmapParser.ParsedFieldsAreTrimmedSubstrings | roadmap_backend/roadmap/views.py:412-471 | every one of the six fields is stripped and a substring of the reply |
| RoadmapParser.EmptyIsSubstring | roadmap_backend/roadmap/views.py:426-433 | the default "" is a substring of any reply |
| Catalog.DimensionKeysDistinct | roadmap_backend/roadmap/views.py:261-277 | the mapper starts from fifteen distinct keys |
| Catalog.CatalogIds | roadmap_backend/roadmap_backend/seed_questions.py:14-210 | the catalog has fifteen questions with ids 1 to 15, in ascending order |
| Catalog.CatalogDimensions | roadmap_backend/roadmap_backend/seed_questions.py:17-199 | question i belongs to the i-th dimension key |
| Catalog.CatalogValues | roadmap_backend/roadmap_backend/seed_questions.py:23-208 | every value is non-empty, at most 50 characters long (roadmap/models.py:76-79), and differs from the question's other three values |
| Catalog.CatalogDimensionsDistinct | roadmap_backend/roadmap_backend/seed_questions.py:17-199 | every catalog dimension is one of the fifteen keys, and no two questions share a dimension |
| Assessment.ResolveNonEmptyIff | roadmap_backend/roadmap/views.py:298-307 | on a catalog-shaped question an answer selects a non-empty value exactly when it is "a", "b", "c" or "d" (case-sensitive) |
| Assessment.ResolveInjective | roadmap_backend/roadmap_backend/seed_questions.py:23-208 | different letters select different values |
| Assessment.Lookup | roadmap_backend/roadmap/views.py:288 | the lookup returns a question with the requested id, and fails only when no question has it |
| Assessment.LookupFinds | roadmap_backend/roadmap/models.py:69 | with unique ids, looking up a question's id finds that question |
| Assessment.CatalogLookup | roadmap_backend/roadmap_backend/seed_questions.py:14-210 | in the catalog, id i+1 finds the i-th question |
| Assessment.Fold | roadmap_backend/roadmap/views.py:283-317 | the answer loop keeps exactly the keys of the map it starts from |
| Assessment.Run | roadmap_backend/roadmap/views.py:261-317 | the loop's map always has exactly the fifteen keys |
| Assessment.Rows | roadmap_backend/roadmap/views.py:291-295 | a clean batch creates one row per answer, in order, holding its question and answer |
| Assessment.RunCleanPrefix | roadmap_backend/roadmap/views.py:283-317 | a run that ends clean was clean on every prefix |
| Assessment.RunSucceedsIff | roadmap_backend/roadmap/views.py:283-317 | the loop runs to the end exactly when every answer names an existing question and no question repeats, and then creates one row per answer |
| Assessment.StoppedStays | roadmap_backend/roadmap/views.py:313-317 | once the loop has stopped, later answers change nothing |
| Assessment.FirstUnknownStops | roadmap_backend/roadmap/views.py:313-317 | the first unknown question id stops the loop with that id, and the rows created before it remain |
| Assessment.UnknownDimensionIgnored | roadmap_backend/roadmap/views.py:310-311 | an answer to a question whose dimension is not a key leaves the map unchanged |
| Assessment.LastWriteWins | roadmap_backend/roadmap/views.py:283-311 | a key holds the value selected by the last answer of that dimension, even when that value is "" |
| Assessment.UnansweredStaysBlank | roadmap_backend/roadmap/views.py:261-311 | a key no answer's question belongs to keeps its initial "" |
| Assessment.StepRecords | roadmap_backend/roadmap/views.py:288-311 | an answer to a known, not yet answered question appends its row and stores its value under its dimension |
| Assessment.TwoAnswers | roadmap_backend/roadmap/views.py:283-311 | two answers to questions of different dimensions store both selected values |
| Assessment.LastAnswerFor | roadmap_backend/roadmap/views.py:283-311 | every dimension answered in a batch has a last answer for it |
| Assessment.KeyPopulated | roadmap_backend/roadmap_backend/seed_questions.py:14-210 | a clean run of letter answers that covers catalog question n+1 fills the n-th key with a non-empty value |
| Assessment.FullCatalogPopulates | roadmap_backend/roadmap_backend/seed_questions.py:14-210 | answering every catalog question once with a letter a to d runs clean and fills all fifteen keys with non-empty values |
| Assessment.FirstTwoQuestions | roadmap_backend/roadmap_backend/seed_questions.py:16-39 | ids 1 and 2 find the first two catalog questions |
| Assessment.FirstTwoValues | roadmap_backend/roadmap_backend/seed_questions.py:16-39 | question 1 is `problem_solving` with "a" = "creative", and question 2 is `goal_energy` with "b" = "progress-focused" |
| Assessment.FirstTwoQuestionsExample | roadmap_backend/roadmap_backend/seed_questions.py:16-39 | q1 answered "a" and q2 answered "b" map `problem_solving` to "creative" and `goal_energy` to "progress-focused" |
| Assessment.CreatedIsPatchedBlank | roadmap_backend/roadmap/views.py:320-332 | creating a profile is patching the all-"" profile |
| Assessment.CreatedIsDims | roadmap_backend/roadmap/views.py:329-332 | because the loop's map holds all fifteen keys, a new profile is that map, "" entries included |
| Assessment.PatchWithBlanksKeeps | roadmap_backend/roadmap/views.py:323-326 | a map of "" values leaves a stored profile unchanged |
| Assessment.PatchWithFullMapReplaces | roadmap_backend/roadmap/views.py:323-326 | a map of fifteen non-empty values replaces a stored profile entirely |
| Assessment.PatchIdempotent | roadmap_backend/roadmap/views.py:323-326 | patching twice with the same map is patching once |
| Assessment.UpdateProfile | roadmap_backend/roadmap/views.py:323-326 | the update loop writes each non-empty mapped value into the profile and keeps every other field |
| Assessment.AnswerLoop | roadmap_backend/roadmap/views.py:283-317 | the loop's rows, map and error are those of the answer fold |
| Assessment.UserAssessment.constructor | roadmap_backend/roadmap/models.py:85-92 | a user's stored answers and profile |
| Assessment.UserAssessment.SubmitAssessment | roadmap_backend/roadmap/views.py:253-338 | an empty batch fails with nothing changed; otherwise the rows are replaced by those the loop creates; an unknown or repeated question fails with the profile untouched; a clean run stores and returns the merged profile (patched, or created with "" defaults) |
| ProfileEdit.ResetAfterWindow | roadmap_backend/roadmap/views.py:94-98 | more than ten minutes after the last attempt the count resets to 0; a request other than a POST keeps the time, and such a POST is never refused |
| ProfileEdit.BlockedPostUnchanged | roadmap_backend/roadmap/views.py:100-102 | a POST with five or more failures within the window is refused and changes neither the count nor the time |
| ProfileEdit.PostAccepted | roadmap_backend/roadmap/views.py:103-116 | an accepted valid POST sets the count to 0, an invalid one adds one failure, and both stamp the time |
| ProfileEdit.BlockedIff | roadmap_backend/roadmap/views.py:94-102 | a POST is refused exactly when five failures are on record within ten minutes |
| ProfileEdit.NextInRange | roadmap_backend/roadmap/views.py:89-116 | one request keeps the count between 0 and 5 |
| ProfileEdit.ReplayInRange | roadmap_backend/roadmap/views.py:89-116 | the count never exceeds 5, whatever the requests |
| ProfileEdit.FailuresAccumulate | roadmap_backend/roadmap/views.py:112-116 | up to five invalid POSTs, each within ten minutes, count 1, 2, ... and stamp the last time |
| ProfileEdit.FiveFailuresBlock | roadmap_backend/roadmap/views.py:100-116 | five such failures lock the form for a sixth POST within ten minutes |
| ProfileEdit.ProfileSession.constructor | roadmap_backend/roadmap/views.py:91-92 | a fresh session has count 0 and no attempt time |
| ProfileEdit.ProfileSession.HandleRequest | roadmap_backend/roadmap/views.py:89-116 | the new session values and the reported outcome are those of the transition function, and the count stays between 0 and 5 |
| RoadmapGeneration.Goal.constructor | roadmap_backend/roadmap/models.py:6-19 | a goal with its id, owner and six roadmap fields |
| RoadmapGeneration.FindGoal | roadmap_backend/roadmap/views.py:491-494 | the lookup returns a goal with that id owned by the user, and fails only when there is none |
| RoadmapGeneration.LowerString | roadmap_backend/roadmap/views.py:516 | `lower()` keeps the length and lower-cases each character |
| RoadmapGeneration.SummaryKeys | roadmap_backend/roadmap/views.py:507-518 | the summary has exactly one key per dimension of a stored answer |
| RoadmapGeneration.SummaryLastWins | roadmap_backend/roadmap/views.py:507-518 | each key holds the value of the last answer of that dimension |
| RoadmapGeneration.SummaryAgreesOnLetters | roadmap_backend/roadmap/views.py:514-517 | on "a" to "d" the summary selects the same value as the profile mapper |
| RoadmapGeneration.SummaryDiffersOffLetters | roadmap_backend/roadmap/views.py:514-517 | otherwise the mapper gives "", while the summary selects the value of the lower-cased letter when that is a letter a to d, and keeps the raw answer when it is not |
| RoadmapGeneration.UpperCaseExample | roadmap_backend/roadmap/views.py:514-517 | "A" selects `value_a` in the summary but "" in the mapper |
| RoadmapGeneration.AssessmentSummary | roadmap_backend/roadmap/views.py:507-518 | the summary loop computes the summary map of the stored answers |
| RoadmapGeneration.ChecksComeFirst | roadmap_backend/roadmap/views.py:488-505 | missing goal_id gives 400, an unknown or foreign goal gives 404, no profile gives 400, and no answers gives 400, in that order; a failed check does not depend on the model or the save |
| RoadmapGeneration.SuccessIsParsedReply | roadmap_backend/roadmap/views.py:548-569 | a success means every check passed and the save worked, and the result is exactly the parse of the model's reply |
| RoadmapGeneration.ReplyWithoutPlanClears | roadmap_backend/roadmap/views.py:554-562 | a reply without `Full Plan:` clears all six goal fields |
| RoadmapGeneration.GenerateRoadmap | roadmap_backend/roadmap/views.py:476-572 | the response is that of the check chain, the model call and the save; on success the target goal's six fields equal the parsed reply and no other goal changes; on failure no goal changes |

## Left out

- The generative model call (`analyze_goal_with_gemini`) is a function parameter returning a reply or an error message. The network, its latency and its timeouts are not modelled.
- The prompt text (views.py:521-547) is the record `RoadmapGeneration.Prompt` of its inputs. Its rendering through Python's dict formatting is not modelled.
- Django and REST framework plumbing is not modelled: authentication, request parsing, serializers, templates and flash messages. The view outcomes are datatypes, and the statuses are `RoadmapGeneration.Status`.
- RoadmapGeneration.Status carries no contract: it only names the status code of each error.
- Case-insensitive matching folds ASCII letters only. Python's `re.IGNORECASE` also equates a few non-ASCII letters with ASCII ones, such as U+017F (long s) with "s" and U+0130/U+0131 with "i". A reply using them may match a marker in Python but not in the model.
- `str.lower()` in the summary is ASCII lower-casing. Only an answer whose lower-case form is "a" to "d" selects a value, and ASCII lower-casing decides that exactly as Python's `lower()` does; other answers appear unchanged in the summary.
- The limiter's session storage and ISO-8601 timestamp parsing are replaced by an integer microsecond clock and two fields.
- The limiter's form validation and profile save are not modelled: validity is the input `formValid`. The profile loaded for display is not modelled either.
- Database transactions, ordering and failures are not modelled. A stored answer row for `generate_roadmap` carries its question. The failure of the goal save is the input flag `saves`.
- A repeated question within one batch violates the unique (user, question) constraint, and the view does not catch the error. The model reports it as `DuplicateAnswer` with the rows created so far kept and the profile untouched.
- The one-character width of a stored answer (models.py:88) is not enforced. An answer other than "a" to "d" maps to "" whatever its length. A missing `answer` or `question_id` (Python `None`) is not modelled.
- Django coerces `question_id` and `goal_id` from strings and other JSON values. The model takes integers, with `goal_id` absent or an integer. `not goal_id` is absent or 0; other falsy JSON values (an empty string, `false`) are not modelled.
- Goal fields that are NULL in the database are not modelled: every field is a string.
- Catalog.Question omits the question text and the four option labels, which are only displayed.
- `seed_questions()` (seed_questions.py:212-221) deletes and inserts database rows and is not modelled. The catalog is the constant it inserts.
- `Goal.objects.get` raising `MultipleObjectsReturned` cannot happen because goal ids are primary keys.
