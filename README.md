# Course comment notifier — a Dafny model

This project models the core of `notify_course_comments.py`, a periodic job that does four things:

- It looks at every student comment in a Canvas course.
- It keeps the comments written by members of known student groups.
- It posts each comment it has not seen before to a Teams webhook.
- It remembers what it has posted in a small JSON "dedupe" store.

The model covers these parts:

- **Text helpers** (`Text`): `normalize_text`, `is_truthy`, and the pieces of Python's string library they rest on. These are `str.split()`, `str.join`, `str.strip()` with Python's exact whitespace set, ASCII `str.lower()` and `str(int)`.
- **Identity keyer** (`Keyer`): `make_comment_key`. The record is keyed by comment id when there is one, and otherwise by content with the text normalised. The serialise-and-hash step is a parameter `digest` of the operations that need keys.
- **Dedupe store** (`State`): the value logic of `load_state`, and the document `save_state` writes.
- **Event collector** (`Collector`): `collect_candidate_events`. Its nested loops are methods proved against specification functions, followed by Python's stable sort on `created_at or ""`.
- **Message text** (`Format`): `build_teams_text`.
- **Delivery** (`Delivery`): the `post_to_teams` retry loop, run over a scripted network oracle.
- **Run decision** (`Orchestrator`): `main` from line 229 on, in this order:
  1. partition the candidates by key into seen and unseen;
  2. the dry-run branch;
  3. the first-run baseline branch;
  4. the delivery loop, which records a key only after a successful post;
  5. the decision whether to save.

Supporting definitions:

- `Base` holds `Option`, `Result` and a JSON value type.
- A Python `None` is `Option.None`.
- A missing dictionary key or object attribute also reads as `None`.
- The network is `network(i)(k)`: the outcome of attempt `k` for the `i`-th unseen event.
- The clock is `clock(n)`: the `n`-th timestamp text taken during a run.

Some behaviours of the code are easy to misread; the model follows the code:

- **Group name.** The fallback group name at `notify_course_comments.py:198` is "No Group". It cannot be reached, because line 185 has already checked that the author is in the map. The model reads the map entry directly.
- **Retried errors.** Only the HTTP codes 429, 500, 502, 503 and 504 are retried (line 147), not every 5xx code. `Delivery.RetryableCodes` is that set.
- **Non-2xx responses.** A response that returns without an exception but has a non-2xx status is tried again at once, with no pause (lines 143-145).
- **Saving the store.** The store is not saved on every run. The baseline branch (condition at line 252) always saves, at line 261. The delivery branch saves only under the condition at line 280. Dry runs are never saved.

## Model

| member | source | states |
|---|---|---|
| Text.NormalizeText | notify_course_comments.py:71-74 | `None` gives ""; every result is normalised: whitespace occurs only as single spaces strictly inside the text, so there is none at the ends and no run of two |
| Text.NormalizeIdempotent | notify_course_comments.py:71-74 | normalising twice gives the same text as normalising once |
| Text.NormalizeFixpoints | notify_course_comments.py:71-74 | a text is unchanged by normalisation exactly when it is normalised (both directions) |
| Text.NormalizeLayout | notify_course_comments.py:74 | any layout of the same words, with any whitespace between and around them, normalises to those words joined by single spaces |
| Text.SplitJoin | notify_course_comments.py:74 | `split()` recovers the words that `" ".join` put together |
| Text.NormalizeExample | tests/test_notify_course_comments.py:17-19 | `"  hello\n\tworld  "` normalises to `"hello world"`, and `None` to `""` |
| Text.Split | notify_course_comments.py:74 | `str.split()`: the pieces are non-empty and hold no whitespace; with `Join` it round-trips (`SplitJoin`) and ignores the layout of whitespace (`NormalizeLayout`) |
| Text.Join | notify_course_comments.py:74 | `sep.join(words)`: no own contract; `SplitJoin` states that `Split` recovers the joined words and `JoinIsNormalized` that single-space joins of words are normalised |
| Text.Strip | notify_course_comments.py:80 | `str.strip()`: the result neither starts nor ends with whitespace; `StripPadded` states that exactly the padding is removed |
| Text.Lower | notify_course_comments.py:80 | `str.lower()` on ASCII: the result has the input's length and each character is that of the input lowered (capitals A-Z become a-z, every other character is kept) |
| Text.IsTruthy | notify_course_comments.py:77-80 | no own contract; `TruthyIgnoresPadding` states both directions of "truthy iff the trimmed, lower-cased text is one of the four words", and `TruthyRejects` that `None` is not truthy |
| Text.StripPadded | notify_course_comments.py:80 | `strip()` removes exactly the whitespace padding around a text that does not start or end with whitespace |
| Text.TruthyIgnoresPadding | notify_course_comments.py:77-80 | a flag is truthy exactly when its text without padding, lower-cased, is one of "1", "true", "yes", "on" (both directions) |
| Text.TruthyAccepts | tests/test_notify_course_comments.py:10-12 | "1", "true" and "YES" are truthy |
| Text.TruthyPaddedExample | notify_course_comments.py:80 | " On\n" is truthy: padding and letter case do not matter |
| Text.TruthyRejects | tests/test_notify_course_comments.py:13-15 | "0", "false" and `None` are not truthy |
| Text.TruthyAnyCase | notify_course_comments.py:80 | every ASCII case variant of "1", "true", "yes" or "on" is truthy |
| Text.IntToString | notify_course_comments.py:113-115 | `str(i)`: one or more characters, a leading `-` exactly for negatives, and otherwise only digits; `IntToStringInjective` states that it identifies the integer |
| Text.IntToStringInjective | notify_course_comments.py:184 | different integers are written differently, so the group-map key `str(author_id)` identifies the author |
| Text.NatToStringInjective | notify_course_comments.py:184 | different natural numbers are written with different digits |
| Text.OptIntToString | notify_course_comments.py:114 | `str(v)` for an optional id in the f-strings, "None" for `None`; no own contract; the message lemmas state that it holds no line break (`IdOneLine`) |
| Keyer.CanonicalRecord | notify_course_comments.py:89-105 | no own contract; `CanonicalById` and `CanonicalByContent` state which record is built and when two comments get the same one |
| Keyer.MakeCommentKey | notify_course_comments.py:83-107 | no own contract; the key is the digest of the canonical record, and `KeyIgnoresEdits` and `KeyIgnoresWhitespace` state what it depends on, for every digest |
| Keyer.CanonicalById | notify_course_comments.py:89-96 | with a comment id, the canonical record is the by-id one, and two comments get the same record exactly when course, assignment, submission owner and comment id agree |
| Keyer.CanonicalByContent | notify_course_comments.py:97-105 | without a comment id, two comments get the same record exactly when the other has no id either and course, assignment, submission owner, author, creation time and normalised text all agree |
| Keyer.KeyIgnoresEdits | notify_course_comments.py:89-96 | a comment that keeps its id keeps its key, whatever else changes |
| Keyer.KeyIgnoresWhitespace | notify_course_comments.py:97-107 | id-less comments with the same author and time whose texts lay out the same words with different whitespace get the same key, for every digest function |
| Keyer.KeyWhitespaceExample | tests/test_notify_course_comments.py:49-62 | "Great   work" and "Great work" get the same key |
| State.LoadState | notify_course_comments.py:47-58 | a file that is not JSON is the only error; the version is always 1; the existence flag is set exactly for an existing file; a missing file gives an empty seen map; a payload's `seen` object is kept as it is, and a non-object payload or non-object `seen` gives an empty map |
| State.SaveLoadRoundTrip | notify_course_comments.py:47-68 | loading the document saved for a version-1 store gives that store back, flagged as existing |
| State.LoadSaveLoad | notify_course_comments.py:47-68 | saving a loaded store and loading it again gives the same store |
| State.StateJson | notify_course_comments.py:61-68 | the document `save_state` writes; no own contract; `SaveLoadRoundTrip` and `LoadSaveLoad` state that loading it gives the store back |
| State.StateExample | tests/test_notify_course_comments.py:83-105 | no file gives an empty, non-existing store; a saved store with key "k1" loads back as existing with "k1" seen |
| Collector.CourseName | notify_course_comments.py:191 | `getattr(course, "name", "Unknown course")`: no own contract; `MakeEvent` puts it in every event |
| Collector.AssignmentName | notify_course_comments.py:166 | `getattr(assignment, "name", f"Assignment {assignment_id}")`: no own contract; `MakeEvent` puts it in every event |
| Collector.AuthorName | notify_course_comments.py:197 | `comment.get("author_name") or f"User {author_id}"`: never empty |
| Collector.CommentText | notify_course_comments.py:200 | `comment.get("comment") or ""`: no own contract; `BuildTeamsText` states how it is shown |
| Collector.Qualifies | notify_course_comments.py:180-186 | the comment filter: no own contract; `AppendCommentEvents` states that the loop keeps exactly the qualifying comments, and `MakeEvent` and `CollectedEventsQualify` that their events carry the author's group-map entry |
| Collector.CommentEvents | notify_course_comments.py:179-203 | the comment loop's specification; no own contract; `CommentEventsFrom` states which events it holds, and `AppendCommentEvents` that the loop computes it |
| Collector.SubmissionEvents | notify_course_comments.py:175-203 | the submission loop's specification; no own contract; `SubmissionEventsFrom` states which events it holds, and `AppendSubmissionEvents` that the loop computes it |
| Collector.SortKey | notify_course_comments.py:205 | `item.get("created_at") or ""`: no own contract; `SortByCreatedSorts` and `SortByCreatedStable` state the sort by it |
| Collector.StrLe | notify_course_comments.py:205 | Python's string comparison; no own contract; `StrLeReflexive`, `StrLeTotal`, `StrLeTransitive` and `StrLeAntisymmetric` state that it is a total order |
| Collector.AssignmentEvents | notify_course_comments.py:169-203 | no own contract; `FailedAssignmentSkipped` states that a failed fetch contributes nothing, and `CourseEventsFrom` which events a fetched one contributes |
| Collector.CourseEvents | notify_course_comments.py:164-203 | no own contract; `CourseEventsFrom` states both directions of which events are collected, and `CollectCandidateEvents` that its loops compute it |
| Collector.SortByCreated | notify_course_comments.py:205 | no own contract; `SortByCreatedSorts` states that it sorts and permutes, and `SortByCreatedStable` that it is stable |
| Collector.MakeEvent | notify_course_comments.py:188-203 | the event carries the comment's author id, creation time and record, and the group-map entry of its author as group name |
| Collector.CollectCandidateEvents | notify_course_comments.py:162-206 | the result is the stable sort by `created_at or ""` of the events of all qualifying comments of the fetched assignments, in loop order; it is sorted; every event's author is in the group map with that group name |
| Collector.AppendSubmissionEvents | notify_course_comments.py:175-203 | the loop over an assignment's submissions appends exactly those submissions' events, in order |
| Collector.AppendCommentEvents | notify_course_comments.py:179-203 | the loop over a submission's comments appends exactly the events of the comments that have an author in the group map, in order |
| Collector.CollectedEventsQualify | notify_course_comments.py:180-198 | the collected events are sorted, and each has an author id in the group map and that author's group name |
| Collector.CourseEventsFrom | notify_course_comments.py:164-203 | an event is collected exactly when some fetched assignment has a submission with a qualifying comment that makes this event (both directions) |
| Collector.CollectedEvents | notify_course_comments.py:162-206 | the sorted output is ordered and holds exactly the events of the qualifying comments of the fetched assignments |
| Collector.FailedAssignmentSkipped | notify_course_comments.py:169-173 | an assignment whose fetch fails contributes nothing and does not change what the other assignments contribute |
| Collector.SortByCreatedSorts | notify_course_comments.py:205 | the sort orders events by `created_at or ""` in Python string order and is a permutation |
| Collector.SortByCreatedStable | notify_course_comments.py:205 | the sort is stable: events with the same key keep their order |
| Collector.StrLeTotal | notify_course_comments.py:205 | Python's string order is total |
| Collector.StrLeTransitive | notify_course_comments.py:205 | Python's string order is transitive |
| Collector.StrLeAntisymmetric | notify_course_comments.py:205 | Python's string order is antisymmetric |
| Format.BuildTeamsText | notify_course_comments.py:110-123 | the text starts with the header and contains the course, assignment, author and group names and the comment; "Created: <time>" when there is a creation time and "Created: unknown" when there is none; "(empty)" when the comment text is empty; it ends with the link line when the assignment has a URL and with "Comment:" and the comment otherwise; when no field holds a line break it has nine lines with a URL and eight without |
| Format.TeamsLines | notify_course_comments.py:111-122 | no own contract; `BuildTeamsText` and the lemmas below state what the joined lines show |
| Format.CreatedText | notify_course_comments.py:117 | `created_at or 'unknown'`: no own contract; `BuildTeamsText` states that "Created: <time>" or "Created: unknown" is shown |
| Format.BodyText | notify_course_comments.py:119 | `comment_text or "(empty)"`: no own contract; `BuildTeamsText` states that the comment, or "(empty)", is shown and ends the text when there is no link |
| Format.TeamsTextShowsLines | notify_course_comments.py:110-123 | every field written on a line appears in the newline-joined text |
| Format.TeamsTextEnds | notify_course_comments.py:118-123 | the link line is the last line when the assignment has a URL; otherwise the text ends with "Comment:" and the comment, so there is no link line |
| Format.TeamsTextLineCount | notify_course_comments.py:111-123 | when no field holds a line break the text holds eight line breaks with a URL and seven without |
| Format.JoinLast | notify_course_comments.py:123 | a newline-joined text ends with a newline and its last line |
| Format.InfixOfJoin | notify_course_comments.py:123 | every joined line appears in the joined text |
| Format.TeamsTextExample | tests/test_notify_course_comments.py:64-81 | the test's event shows "Algorithms", "Report", "Student A" and "Please check section 3." |
| Delivery.PostToTeams | notify_course_comments.py:140-159 | the loop's report is the retry specification's; it delivered exactly when the last attempt made returned 2xx; it makes at most `max_retries` attempts, and none when that is not positive |
| Delivery.Run | notify_course_comments.py:140-159 | the retry specification; no own contract; `RunStops`, `RunPauses`, `RunPausesComplete` and `RunDelivers` state where it stops, that its pauses are exactly those after the attempts that raised, and when it delivers |
| Delivery.RunStops | notify_course_comments.py:140-159 | every attempt before the last one made was retried; the last one is either the last allowed or ended the loop (2xx, non-retryable HTTP error); delivery happened exactly when it returned 2xx |
| Delivery.RunPauses | notify_course_comments.py:146-156 | each pause follows an attempt that raised, happens only when that attempt was below `max_retries`, lasts `2^attempt` seconds, and the pauses come in attempt order |
| Delivery.RunPausesComplete | notify_course_comments.py:146-156 | every attempt that raised and was not the last one made is followed by its pause of `2^attempt` seconds |
| Delivery.RunDelivers | notify_course_comments.py:140-159 | the message is delivered exactly when some allowed attempt returns 2xx and every attempt before it was retried (both directions) |
| Delivery.PermanentErrorStops | notify_course_comments.py:146-152 | an HTTP error outside {429, 500, 502, 503, 504} ends the loop at that attempt without delivery |
| Delivery.RetryExample | notify_course_comments.py:140-149 | a 503 and then a 200 deliver on attempt 2, after one pause of 2 seconds |
| Delivery.OutageExample | notify_course_comments.py:153-158 | three network errors: three attempts, pauses of 2 and 4 seconds, no delivery |
| Orchestrator.Notify | notify_course_comments.py:229-283 | the run collects the candidates and then does exactly what the decision specification says |
| Orchestrator.KeyOf | notify_course_comments.py:232-237 | the key of a candidate, made from the course id and the event's assignment, submission owner and comment; no own contract; `Keyer.KeyIgnoresEdits` and `Keyer.KeyIgnoresWhitespace` state what it depends on, `UnseenExactly` how the partition uses it |
| Orchestrator.Messages | notify_course_comments.py:265-266 | the texts the delivery loop posts, one per unseen event in order; no own contract; `DeliverUnseen` and `DeliveryRecordsSuccesses` state that every unseen event's text is posted |
| Orchestrator.Decision | notify_course_comments.py:229-283 | the decision specification; no own contract; `DryRunChangesNothing`, `BaselineRecordsUnseen`, `DeliveryRecordsSuccesses`, `SavedExactly` and `KeepsSeen` state what each branch does |
| Orchestrator.UnseenOf | notify_course_comments.py:230-240 | no own contract; `UnseenExactly` states both directions of which candidates it keeps |
| Orchestrator.BaselineSeen | notify_course_comments.py:252-260 | no own contract; `BaselineKeys` and `BaselineStamps` state which keys it adds and how they are stamped |
| Orchestrator.DeliverAll | notify_course_comments.py:264-278 | no own contract; `DeliveryKeys`, `DeliveryCount` and `DeliveryStamps` state which keys it adds, what it counts and how it stamps |
| Orchestrator.SeenRecord | notify_course_comments.py:255-260 | the record stored for a key; no own contract; `BaselineStamps` and `DeliveryStamps` state which event and timestamp it holds |
| Orchestrator.Partition | notify_course_comments.py:230-240 | the partition loop yields the unseen specification: candidates whose key is not in `seen`, in order, with their keys |
| Orchestrator.RecordBaseline | notify_course_comments.py:254-260 | the baseline loop yields the baseline seen map |
| Orchestrator.DeliverUnseen | notify_course_comments.py:265-278 | the delivery loop yields the delivery specification's seen map and counter, and posts the text of every unseen event in order |
| Orchestrator.UnseenExactly | notify_course_comments.py:230-240 | the unseen list has each member's own key, none of them seen, and every candidate whose key is not seen is in it |
| Orchestrator.UnseenRefilter | notify_course_comments.py:231-240 | keying against a larger seen map keeps exactly the members of the unseen list whose key it lacks |
| Orchestrator.BaselineKeys | notify_course_comments.py:254-260 | the baseline adds exactly the unseen keys and keeps every earlier entry |
| Orchestrator.BaselineStamps | notify_course_comments.py:253-260 | each key the baseline adds holds the record of an event with that key, stamped with the one timestamp |
| Orchestrator.DeliveryKeys | notify_course_comments.py:266-277 | the delivery loop adds exactly the keys whose delivery succeeded and keeps every earlier entry |
| Orchestrator.DeliveryCount | notify_course_comments.py:265-278 | `sent` is the number of successful deliveries, so at most the number of unseen events |
| Orchestrator.DeliveryStamps | notify_course_comments.py:272-277 | each added record is that of a delivered event with that key, stamped with one of the run's clock readings |
| Orchestrator.KeepsSeen | notify_course_comments.py:231-283 | no branch removes or rewrites an entry that was already seen |
| Orchestrator.DryRunChangesNothing | notify_course_comments.py:242-250 | a dry run keeps `seen` as it is, posts nothing, counts nothing and saves nothing |
| Orchestrator.BaselineRecordsUnseen | notify_course_comments.py:252-263 | a first run with the "baseline" policy adds exactly the unseen keys, stamped with one clock reading; it posts nothing and saves the store |
| Orchestrator.DeliveryRecordsSuccesses | notify_course_comments.py:265-278 | in the delivery branch every unseen event's text is posted; a key is in the final map exactly when it was seen before or some unseen event with that key was delivered; `sent` counts the successes and is at most the number of unseen events |
| Orchestrator.SavedExactly | notify_course_comments.py:252-281 | the store is saved exactly when the run is not a dry run and is a baseline run, or something was sent, or the store did not exist and nothing was unseen; what is saved is the final seen map at version 1 |
| Orchestrator.NextRunUnseen | notify_course_comments.py:231-278 | the next run over the same candidates finds unseen exactly those of this run's unseen events whose key was not recorded, so a failed delivery is tried again |
| Orchestrator.RerunFindsNothing | notify_course_comments.py:231-281 | after a baseline run, or a delivery run in which every post succeeded, the next run over the same candidates finds nothing unseen |
| Orchestrator.RerunFromStoreFindsNothing | notify_course_comments.py:231-281 | after a baseline run, or a delivery run in which every post succeeded, the next run loads the store this run saved (or, when it saved none, the one it loaded) and finds nothing unseen, so nothing is sent twice |
| Orchestrator.NothingSentNothingNew | notify_course_comments.py:264-281 | a delivery run in which every post succeeded but nothing was sent had nothing unseen and keeps its seen map, so skipping the save loses nothing |
| Orchestrator.AllDeliveredCovers | notify_course_comments.py:266-277 | when every delivery succeeds, every unseen key is recorded |

## Left out

- SHA-256 and `json.dumps`: `digest` is a parameter. The key properties hold for every choice of it, and collision resistance is not claimed. So "different records give different keys" is not stated.
- File I/O in `load_state` and `save_state`: the directory creation, the temporary file and the atomic replace (lines 61-68), and JSON parsing itself. The state file is modelled as absent, unparseable, or the JSON value it holds.
- `load_groups`, the environment and token readers, the configuration at the top of `main` (lines 210-227), the Canvas client and `sys.exit`. These are I/O. The group map, the course, the dry-run flag and the first-run policy are inputs to the model. `dryRun` stands for `is_truthy(os.getenv("DRY_RUN"))` (line 216). `policy` stands for `FIRST_RUN_BEHAVIOR` after `.strip().lower()` (line 215), and `Decision` compares it with "baseline" literally.
- HTTP and `time.sleep`: attempt outcomes come from an oracle. The pauses are reported, not taken.
- `time.gmtime` and `strftime`: timestamps come from an oracle.
- Printing: the dry-run listing, the progress messages, and logging of failed fetches and deliveries.
- The message-card payload and request headers (lines 127-138): the text is the only part that varies.
- The timeout argument of `urlopen`.
- Python's `str.lower()` outside ASCII. No non-ASCII character lowers to a letter of "1", "true", "yes" or "on", so `is_truthy` is unaffected.
- Floating-point numbers in the JSON value type. They are not needed for the store's shape.
- The course's `id` is always present in the model. The code reads it with `getattr(course, "id", None)`.
- Collector.AssignmentName: an assignment or course name attribute that is present but `None` is not modelled. Names are either present strings or absent.
- Collector.CollectCandidateEvents: the comment and submission loops are separate methods, `AppendCommentEvents` and `AppendSubmissionEvents`. The events list is threaded through them as a value, not updated in place.
- Orchestrator.Notify: `seen` and the event list are values the method reassigns. The aliasing between `seen` and `state["seen"]` shows up only in that the saved store holds the final `seen`. The three loops of `main` are separate methods.
- Delivery.PostToTeams: exceptions other than `HTTPError` and `URLError` are not modelled. `post_to_teams` does not catch them (it catches only those two, at lines 146 and 153), so one raised while posting, such as a read time-out that urllib does not wrap in `URLError`, ends `main` before the save at line 281. Deliveries already made in that run are then not recorded and are sent again on the next run. `Delivery.Outcome` has no such case, so `Orchestrator.Notify` always reaches its save decision.
- Collector.CollectCandidateEvents: only the `get_submissions(...)` call sits inside the `try` at lines 169-173. An exception raised later, while line 175 walks the submissions, is not caught and ends the whole run without a save. The model places every failure at that call (`FetchFailed`), where it is caught and the assignment is skipped. `FailedAssignmentSkipped` therefore covers only failures of the call itself.
- main.py, main_all.py, get_noti.py and fetch_groups.py are not part of this model. They are interactive scripts and thin API wrappers.
