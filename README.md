# SimPatient core rules in Dafny

SimPatient is a clinical-skills trainer. A doctor talks to a simulated patient
by text or voice, ends the session and gets rubric feedback. This project
models the deterministic rules at the core of that loop, and proves
properties about them:

- the pause-to-send speech endpointer, with its text-to-speech `speaking`
  flag (`useSpeech`/`useTTS`). This is an event-driven class: one method per
  recogniser or synthesiser event, and a ghost record of every utterance it
  hands on;
- the voice-mode controller of the chat view (`ChatArea`). This is a class
  over `voiceMode`, `status`, the message list, `lastSpokenId` and the idle
  timer, plus a ghost log of engine commands. Transcript formatting is pure;
- the backend rules:
  - the keyword rubric and its overall score;
  - the offline fallback patient reply;
  - the Bearer Authorization header (the scheme of section 2.1 of RFC 6750,
    with the scheme name compared case-insensitively). Both sides are
    modelled: how the frontend builds it and how the backend reads it;
  - the validation in `dev_login`, `create_thread`, `post_message`,
    `end_thread` and `get_feedback`, over an abstract store of users,
    threads, messages and feedback records;
- the post-processing of the language-model evaluation:
  - the transcript's role mapping;
  - the checks on required keys and on section structure;
  - in-place clamping, assembly and the fixed fallback record;
- the small frontend helpers:
  - the thread-list merge and prepend of the chat layout;
  - the modal-dialog state and its promises;
  - the sidebar's open/closed partition;
  - the dashboard's score bands, category names, chart rows and screen choice.

Timers are an armed flag plus an explicit "fire" event. The browser speech
engines, the network and the database are parameters or abstract state.

Files:

| file | what it holds |
|---|---|
| `Wrappers.dfy` | `Option` and `Result` |
| `Text.dfy` | ASCII whitespace; `trim`/`strip`, `lower`, `split()`, `join`; decimal rendering; whitespace-run replacement |
| `Js.dfy` | JavaScript scalar values, plain objects, truthiness, `\|\|`, object spread, `String(v)` |
| `Speech.dfy` | `Speech.Endpointer` (`useSpeech`) and `Speech.Tts` (`useTTS`) |
| `ChatArea.dfy` | `ChatArea.VoiceController` and the transcript |
| `Rubric.dfy` | keyword rubric, overall score, fallback patient reply |
| `Auth.dfy` | Authorization header |
| `Store.dfy` | `Api.Store`: the route handlers' validation |
| `LlmFeedback.dfy` | the evaluation post-processing of backend/feedback.py |
| `ChatLayout.dfy`, `Modal.dfy`, `Sidebar.dfy`, `Dashboard.dfy` | frontend helpers |

## Model

| member | source | states |
|---|---|---|
| Speech.Pending | frontend/src/hooks/useSpeech.js:52 | the loop looks at the results from `resultIndex` on, and at none when the index is past the end |
| Speech.FinalOf | frontend/src/hooks/useSpeech.js:54-58 | a result contributes at most one utterance, only when it is final, and that utterance is non-empty and trimmed |
| Speech.FinalsWellFormed | frontend/src/hooks/useSpeech.js:55-58 | every utterance an event hands on is non-empty and trimmed |
| Speech.FinalsAppend | frontend/src/hooks/useSpeech.js:52-62 | the final utterances of two runs of results are those of the first run followed by those of the second (index order) |
| Speech.InterimAppend | frontend/src/hooks/useSpeech.js:51-60 | non-final transcripts are concatenated in index order |
| Speech.AllFinalNoInterim | frontend/src/hooks/useSpeech.js:54-63 | an event whose results are all final leaves the interim buffer empty |
| Speech.NoFinalNoUtterance | frontend/src/hooks/useSpeech.js:54-61 | an event with no final result hands on nothing |
| Speech.EmitAllWellFormed | frontend/src/hooks/useSpeech.js:42 | appending well-formed utterances keeps the whole record well formed |
| Speech.WalkResults | frontend/src/hooks/useSpeech.js:51-63 | the loop's emitted utterances and its accumulated interim text equal the specification functions of the pending results |
| Speech.Endpointer.constructor | frontend/src/hooks/useSpeech.js:21-31 | starts not listening, with an empty buffer, no timer and nothing emitted |
| Speech.Endpointer.ResetSilenceTimer | frontend/src/hooks/useSpeech.js:38-45 | afterwards exactly one silence timer is armed; nothing else changes |
| Speech.Endpointer.OnStart | frontend/src/hooks/useSpeech.js:47 | listening, timer re-armed, buffer and emitted utterances unchanged |
| Speech.Endpointer.OnResult | frontend/src/hooks/useSpeech.js:49-66 | re-arms the timer, hands on exactly the final utterances of the pending results, and replaces the buffer with their interim text |
| Speech.Endpointer.OnSilenceTimeout | frontend/src/hooks/useSpeech.js:40-44 | an armed timer hands on the trimmed buffer if and only if it is non-empty and requests stop, leaving the buffer as it is; a disarmed timer does nothing |
| Speech.Endpointer.OnEnd | frontend/src/hooks/useSpeech.js:70-76 | not listening, empty buffer, no timer, so no flush can follow |
| Speech.Endpointer.Request | frontend/src/hooks/useSpeech.js:86-87 | an engine exception is reported to `onError` exactly when a recogniser exists and throws; it never reaches the caller |
| Speech.Tts.constructor | frontend/src/hooks/useSpeech.js:94 | `speaking` starts false |
| Speech.Tts.Speak | frontend/src/hooks/useSpeech.js:95-103 | without a synthesiser nothing happens; otherwise the current utterance is cancelled before the new one is queued |
| Speech.Tts.OnUtteranceStart | frontend/src/hooks/useSpeech.js:99 | `speaking` becomes true |
| Speech.Tts.OnUtteranceEnd | frontend/src/hooks/useSpeech.js:100 | `speaking` becomes false and `onEnd` is called |
| Speech.Tts.Cancel | frontend/src/hooks/useSpeech.js:104 | the synthesiser queue is cancelled when a synthesiser exists and nothing is called otherwise (the exception is swallowed); either way `speaking` becomes false and `onEnd` is not called |
| ChatArea.LastPatient | frontend/src/ui/ChatArea.jsx:58 | none exactly when no message is the patient's; otherwise a patient message after which no other patient message follows |
| ChatArea.LastPatientAppendOther | frontend/src/ui/ChatArea.jsx:58 | appending a doctor message leaves the latest patient message unchanged |
| ChatArea.StopsBeforeSpeakingAppend | frontend/src/ui/ChatArea.jsx:59-61 | the "stop capture directly before every speak" invariant survives appending a batch of commands that does not start with a speak |
| ChatArea.VoiceController.constructor | frontend/src/ui/ChatArea.jsx:19-30 | voice mode off, status 'open', no messages, nothing spoken, no idle timer |
| ChatArea.VoiceController.ResetIdleTimer | frontend/src/ui/ChatArea.jsx:67-72 | afterwards exactly one idle timer is armed |
| ChatArea.VoiceController.OnIdleTimeout | frontend/src/ui/ChatArea.jsx:69-71 | an armed timer turns voice mode off only when it is on and the recogniser is neither listening nor speaking; nothing else changes |
| ChatArea.VoiceController.SetMessages | frontend/src/ui/ChatArea.jsx:57-65 | the list is replaced; the latest patient message is spoken, right after a stop of capture, only if its id differs from the last spoken id, and then the idle timer is reset; the stop-before-speak invariant is kept |
| ChatArea.VoiceController.Redeliver | frontend/src/ui/ChatArea.jsx:57-65 | delivering the same list a second time issues no command |
| ChatArea.VoiceController.OnMeta | frontend/src/ui/ChatArea.jsx:52-54 | title and status are taken over from the metadata |
| ChatArea.VoiceController.SendText | frontend/src/ui/ChatArea.jsx:87-91 | an empty text, a closed thread or an all-whitespace text does nothing; otherwise exactly one optimistic doctor message with the trimmed text is appended and the trimmed text is posted |
| ChatArea.VoiceController.OnPostReply | frontend/src/ui/ChatArea.jsx:92-94 | the server's list replaces the whole list (with the speak rule) and the idle timer is reset |
| ChatArea.VoiceController.StartVoice | frontend/src/ui/ChatArea.jsx:125-131 | refused without a recogniser or on a closed thread; otherwise the error is cleared, voice mode turned on, capture started and the idle timer reset |
| ChatArea.VoiceController.EndVoice | frontend/src/ui/ChatArea.jsx:132-136 | voice mode off, capture stopped, speech cancelled |
| ChatArea.VoiceController.CloseOverlay | frontend/src/ui/ChatArea.jsx:245 | only voice mode goes off; no command is issued |
| ChatArea.VoiceController.EndDiagnosis | frontend/src/ui/ChatArea.jsx:99-109 | a declined confirmation or a failed request changes nothing; otherwise the status becomes 'closed', capture is stopped, speech cancelled and voice mode turned off |
| ChatArea.VoiceController.OnSpeechEnd | frontend/src/ui/ChatArea.jsx:42-44 | capture resumes (permission request, then start) only when voice mode is on and the status is 'open' |
| ChatArea.VoiceController.OnSttError | frontend/src/ui/ChatArea.jsx:37 | the error's message, or 'Speech error' when it has none |
| ChatArea.LineShape | frontend/src/ui/ChatArea.jsx:112 | a line starts with "Doctor: " exactly for doctor messages and with "Patient: " for every other role, and ends with the content |
| ChatArea.Lines | frontend/src/ui/ChatArea.jsx:112 | one line per message, in order |
| ChatArea.TranscriptSnoc | frontend/src/ui/ChatArea.jsx:112-113 | the lines are joined by a blank line ("\n\n") |
| ChatArea.TranscriptFileNameShape | frontend/src/ui/ChatArea.jsx:116 | the file name has no whitespace and ends with "_transcript.txt"; an empty title gives "Session_transcript.txt" and a whitespace-free title is kept as it is |
| Text.Trim | backend/app.py:274-276 | the result neither starts nor ends with whitespace and is no longer than the input (`TrimIsCore` and `TrimPadded` pin it down) |
| Text.TrimIsCore | backend/app.py:274-276 | the trim is a slice of the input whose prefix before it and suffix after it are all whitespace |
| Text.TrimPadded | frontend/src/ui/ChatArea.jsx:89 | whitespace on both sides of an already trimmed text is exactly what trimming removes, so the trim is uniquely determined |
| Text.TrimEmpty | backend/app.py:379-380 | a text trims to nothing exactly when it is all whitespace |
| Text.TrimIdempotent | frontend/src/ui/ChatArea.jsx:89 | trimming twice is trimming once |
| Text.Fields | backend/app.py:126 | every field of `split()` is non-empty and has no whitespace |
| Text.FieldsSingle | backend/app.py:126-128 | a text splits into exactly itself if and only if it is non-empty and has no whitespace |
| Text.NatToStringRoundTrip | backend/app.py:331 | the decimal rendering of a count reads back as that count |
| Text.IntToStringInjective | frontend/src/pages/ChatLayout.jsx:51 | distinct ids render as distinct route segments |
| Text.ReplaceSpaceRunsNoSpace | frontend/src/ui/ChatArea.jsx:116 | replacing whitespace runs by '_' leaves no whitespace |
| Text.ReplaceSpaceRunsCollapse | frontend/src/ui/ChatArea.jsx:116 | a whole run of whitespace becomes one replacement character |
| Rubric.CountHits | backend/app.py:156 | each keyword counts at most once, so the count is at most the number of keywords |
| Rubric.CountHitsIsHitSet | backend/app.py:156 | the count equals the number of keyword positions whose entry occurs in the text |
| Rubric.ScoreSection | backend/app.py:154-157 | the score lies in 0..5 and never exceeds the number of keywords |
| Rubric.ScoreSectionIsCappedHits | backend/app.py:154-157 | the score is 5 exactly when at least five keyword entries occur in the lower-cased, space-joined texts, and otherwise the number that occur |
| Rubric.CountHitsExtremes | backend/app.py:156 | all keywords present gives the full count, none present gives 0 |
| Rubric.CountHitsMonotone | backend/app.py:155-156 | extending the text never lowers the count |
| Rubric.ScoreSectionMonotone | backend/app.py:154-157 | more messages never lower a section score |
| Rubric.Overall | backend/app.py:195-196 | round(raw/30*100): within half a point of the exact ratio, and in 0..100 |
| Rubric.OverallExtremes | backend/app.py:195-196 | overall is 0 exactly for raw 0, 100 exactly for raw 30, and monotone in raw |
| Rubric.SectionOf | backend/app.py:163-194 | section i has its fixed key and a score in 0..5 |
| Rubric.Total | backend/app.py:195 | the sum of six section scores lies in 0..30 |
| Rubric.GenerateFeedbackShape | backend/app.py:159-201 | the feedback of a thread has the six sections with their fixed keys, titles and feedback hints, each scored 0..5, and an overall score that is the rounded percentage of their total: 0 when all score 0, 100 when all score 5 |
| Rubric.AppendPatientMessage | backend/app.py:160-161 | a new patient message can change only the communication score, and never lowers it |
| Rubric.AppendDoctorMessage | backend/app.py:160-161 | a new doctor message never lowers any of the five doctor-only section scores |
| Rubric.DoctorMessageCanLowerCommunication | backend/app.py:190 | communication is scored on the doctor texts then the patient texts, so a later doctor message can split a keyword across the join: "teach"/"back" scores, and after a doctor "x" the communication score is 0 |
| Rubric.ReplyFrom | backend/app.py:541-549 | the reply is that of the first keyword group (in the fixed order) that occurs, and the default reply exactly when none does |
| Rubric.FallbackReply | backend/app.py:538-549 | the groups are matched on the lower-cased prompt in order; a group's reply exactly when it is the first group that occurs, the default exactly when none does; the replies are the source's strings, including the fever reply's characters U+00AC U+221E where a degree sign was meant |
| Rubric.FallbackReplyIgnoresCase | backend/app.py:540 | the reply does not depend on the prompt's letter case |
| Auth.ParseBearer | backend/app.py:124-128 | an accepted header splits into exactly a scheme that lower-cases to "bearer" and a non-empty, whitespace-free token |
| Auth.SchemeThenToken | backend/app.py:126-128 | a bearer scheme in any letter case, a space and t is accepted exactly when t is one field, and yields t itself exactly when t is non-empty and whitespace-free |
| Auth.FrontendHeaderAccepted | frontend/src/lib/api.js:9-14 | the header the frontend sends for a token is accepted with that very token if and only if the token is non-empty and whitespace-free |
| Api.LocalPart | backend/app.py:276 | the part of the e-mail before its first '@' |
| Api.Store.constructor | backend/app.py:67-110 | the store starts with no users and no threads |
| Api.LoginUser | backend/app.py:282-289 | a new e-mail gets a record with the next id, the given name or "Doctor", an empty picture and the hospital; a known e-mail keeps id, e-mail and picture, keeps its old name when the new one is empty and takes the new hospital |
| Api.Store.DevLogin | backend/app.py:271-291 | e-mail trimmed and lower-cased, hospital trimmed; either empty gives 400 and changes nothing; otherwise the `LoginUser` record is stored under the e-mail and returned, and only a new user advances the user id; threads are untouched and the store stays well formed |
| Api.Store.CreateThread | backend/app.py:321-340 | a blank title becomes "Patient n+1" for a caller owning n threads; the new thread is open, empty, without feedback and under a fresh id |
| Api.DefaultTitleNotBlank | backend/app.py:329-331 | the default title is non-blank and already trimmed |
| Api.Store.PostMessage | backend/app.py:367-398 | 404 for a thread the caller does not own, then 409 for a closed thread before the payload is looked at, then 400 for a bad role or blank content; a doctor post adds the message and exactly one patient reply, a patient post adds none |
| Api.Store.GetFeedback | backend/app.py:520-534 | the stored feedback exactly when the caller owns the thread, it is closed and it has feedback; 404 otherwise |
| Api.Store.EndThread | backend/app.py:463-518 | a closed thread with feedback answers with it unchanged; otherwise the thread is closed and its single feedback record set to the rubric, which `get_feedback` then returns |
| LlmFeedback.ContentRole | backend/feedback.py:49-52 | "user" exactly for the doctor, "model" for every other role |
| LlmFeedback.MessagesToContents | backend/feedback.py:45-53 | one turn per message, in order, with the mapped role and the message's text |
| LlmFeedback.Clamp | backend/feedback.py:151 | the result lies in the range, an in-range value is unchanged, values below or above become the bound |
| LlmFeedback.Fallback | backend/feedback.py:113-121 | overall score 0, the fixed fallback text, and the six sections with score 0, their title and their hint as feedback |
| LlmFeedback.RequiredSplit | backend/feedback.py:144-148 | the required keys are the overall feedback, the overall score and the six sections |
| LlmFeedback.Evaluate | backend/feedback.py:138-206 | an unusable answer gives the fallback record; the record always has the six sections with their keys and titles, an overall score in 0..100 and section scores in 0..5 |
| LlmFeedback.Validate | backend/feedback.py:139-206 | the key loop, the in-place clamping of the overall score and the section loop with in-place clamping compute exactly `Evaluate` of the parsed answer |
| LlmFeedback.MissingKeyFallback | backend/feedback.py:146-148 | a missing required key gives the fallback record |
| LlmFeedback.BadSectionFallback | backend/feedback.py:154-156 | a section that is not a dictionary with "score" and "feedback" gives the fallback record |
| LlmFeedback.UsableKeepsModelOutput | backend/feedback.py:149-206 | a usable answer yields its overall feedback as the text and its section feedback; each score is kept when in range and otherwise becomes the nearer bound (0 or 100 overall, 0 or 5 per section) |
| ChatLayout.UpdateThreads | frontend/src/pages/ChatLayout.jsx:58 | length and order kept; entries with the updated id are merged with the update's fields winning; all others unchanged |
| ChatLayout.MergeKeepsId | frontend/src/pages/ChatLayout.jsx:58 | a merged entry still carries the updated id, and merging again changes nothing |
| ChatLayout.UpdateThreadsIdempotent | frontend/src/pages/ChatLayout.jsx:58 | delivering the same update twice is delivering it once |
| ChatLayout.NewChat | frontend/src/pages/ChatLayout.jsx:47-55 | a created thread goes in front of the previous list and the route becomes "/<id>"; a failure changes nothing |
| ChatLayout.OnRoute | frontend/src/pages/ChatLayout.jsx:22-36 | without a route parameter the metadata is cleared; a fetched thread becomes the metadata; a failed fetch redirects to "/newchat" |
| ChatLayout.MergeMeta | frontend/src/pages/ChatLayout.jsx:60 | the result has the keys of both; the update's fields win, and every field of the old metadata that the update does not name keeps its value |
| ChatLayout.MetaAfterUpdateAsWritten | frontend/src/pages/ChatLayout.jsx:59-61 | merged exactly when the route string strictly equals the id |
| ChatLayout.AsWrittenMissesCurrentThread | frontend/src/pages/ChatLayout.jsx:59 | on route "7", an update closing thread 7 leaves the metadata's status "open" |
| ChatLayout.MetaAfterUpdate | frontend/src/pages/ChatLayout.jsx:59-61 | merged exactly when the route names the updated thread |
| ChatLayout.RouteNamesOneNumber | frontend/src/pages/ChatLayout.jsx:51 | the route "/<n>" names thread n and no other numeric id |
| ChatLayout.NewChatRouteNamesCreated | frontend/src/pages/ChatLayout.jsx:50-51 | the route `newChat` navigates to names the created thread |
| Modal.Shown | frontend/src/hooks/useModal.js:17-29 | open; each falsy field takes its default ('Alert', '', 'info', 'OK', 'Cancel'), a truthy one is kept; the cancel button shows unless `showCancel` is exactly false |
| Modal.ShowModal | frontend/src/hooks/useModal.js:15-31 | a new pending promise, earlier ones untouched, and the dialog shown for it |
| Modal.CloseModal | frontend/src/hooks/useModal.js:33-35 | closed, every other field unchanged, no promise settled |
| Modal.ClickConfirm | frontend/src/hooks/useModal.js:25-28 | the only promise that can change is the pending one the handler names, and it becomes resolved with true; the dialog closes |
| Modal.ConfirmResolvesShown | frontend/src/hooks/useModal.js:25-28 | confirming a freshly shown dialog resolves its promise with true |
| Modal.SecondShowSupersedes | frontend/src/hooks/useModal.js:15-31 | after a second `showModal`, confirming resolves only the second promise and the first stays pending |
| Modal.Confirm | frontend/src/hooks/useModal.js:37-46 | type 'confirm', 'Yes'/'No', cancel button shown |
| Modal.Alert | frontend/src/hooks/useModal.js:48-56 | no cancel button, 'OK', type 'info' unless a truthy type is given |
| Modal.Error | frontend/src/hooks/useModal.js:58-66 | type 'error', 'OK', no cancel button |
| Sidebar.WithStatus | frontend/src/ui/Sidebar.jsx:9-10 | the filtered list holds only threads with that status |
| Sidebar.WithStatusAppend | frontend/src/ui/Sidebar.jsx:9-10 | the filter distributes over concatenation, so original order is kept |
| Sidebar.WithStatusMembers | frontend/src/ui/Sidebar.jsx:9-10 | a thread is in a filtered list exactly when it is in the list with that status |
| Sidebar.OpenClosedPartition | frontend/src/ui/Sidebar.jsx:9-10 | the open and closed lists are disjoint; other statuses appear in neither, open and closed ones in one of them |
| Sidebar.PartitionCount | frontend/src/ui/Sidebar.jsx:9-10 | when every status is open or closed the two lists together hold every thread |
| Sidebar.ShowsPlaceholder | frontend/src/ui/Sidebar.jsx:39 | the placeholder shows exactly when no thread has that status |
| Sidebar.EmptyIffNone | frontend/src/ui/Sidebar.jsx:46 | a filtered list is empty exactly when no thread has that status |
| Sidebar.SubtitleOf | frontend/src/ui/Sidebar.jsx:83 | "Closed …" exactly for a closed item with a truthy `ended_at`, "Updated …" otherwise |
| Sidebar.AsWrittenNeverActive | frontend/src/ui/Sidebar.jsx:37 | with numeric ids no item is ever active under the strict comparison |
| Sidebar.AsWrittenMissesRouteThread | frontend/src/ui/Sidebar.jsx:44 | on route "7", thread 7 is not highlighted |
| Sidebar.AtMostOneActive | frontend/src/ui/Sidebar.jsx:37 | with the corrected comparison and distinct numeric ids at most one item is active, and the item with id n is active on the route `/<n>` |
| Dashboard.ScoreBand | frontend/src/pages/Dashboard.jsx:324-329 | green exactly from 80, yellow exactly for 60 up to below 80, red exactly below 60 |
| Dashboard.ScoreBandMonotone | frontend/src/pages/Dashboard.jsx:326-328 | a higher score never gets a lower band |
| Dashboard.FormatCategoryName | frontend/src/pages/Dashboard.jsx:338-347 | known keys get their display names, any other key is returned unchanged |
| Dashboard.KnownNamesDistinct | frontend/src/pages/Dashboard.jsx:339-346 | distinct known categories get distinct display names |
| Dashboard.ChartRows | frontend/src/pages/Dashboard.jsx:77-87 | one row per entry, in order, with the display name, the score copied and full mark 100 |
| Dashboard.ChartRowsAppend | frontend/src/pages/Dashboard.jsx:77-81 | the rows follow the entries' order |
| Dashboard.ScreenOf | frontend/src/pages/Dashboard.jsx:41-52 | loading first; then the empty state exactly when analytics is missing or `total_sessions === 0`; charts otherwise |
| Dashboard.FailedFetchShowsEmptyState | frontend/src/pages/Dashboard.jsx:28-38 | a failed analytics fetch (there is no analytics route in backend/app.py) leaves the analytics `null`: the spinner while loading, then the empty state |
| Dashboard.SessionsShowCharts | frontend/src/pages/Dashboard.jsx:52 | a positive session count shows the charts |

## Left out

- Browser engines: SpeechRecognition, speechSynthesis and microphone permission are abstract event sources and sinks. The microphone permission request is only the `RequestMic` command.
- Real time: timers are armed flags with explicit fire events. The 3500 ms and 20000 ms delays are not modelled.
- The React lifecycle is not modelled, nor are stale closures:
  - the `useSpeech` effect is re-created when callback identities change;
  - the idle-timer guard reads the values captured when the timer was scheduled;
  - the model evaluates guards over the current state, and `OnIdleTimeout` takes `listening`/`speaking` as parameters.
- `Speech.WalkResults`: the loop body's `interimRef.current = ''` on a final result is overwritten at the end of the event before anything reads it, so it is not modelled.
- The recogniser's `onerror` is only forwarded. The controller's `OnSttError` models what the chat view does with it.
- Whitespace is the set `Text.IsSpace` uses: space, tab, line feed, vertical tab, form feed and carriage return. Python's `strip()`/`split()` also treat the ASCII separators U+001C..U+001F and non-ASCII spaces (U+0085, U+00A0 and others) as whitespace; JavaScript's `trim()` and `\s` do not treat U+001C..U+001F as whitespace but do treat U+00A0, U+FEFF and the other Unicode spaces and line separators. Letter case is mapped for ASCII letters only; Unicode case mapping is not modelled.
- The JWT encode/decode, the user lookup, Google ID-token verification, Gemini calls and ElevenLabs speech are foreign calls:
  - the authenticated caller is a parameter of the route handlers;
  - the model's patient reply is a parameter of `PostMessage`;
  - the model's evaluation answer is a parameter of `Validate`.
- The configured-model branch of the patient reply is only a parameter; its prompt text and its two error replies are not modelled.
- `json.loads` is not modelled: an unparsable answer is `None`.
- `int()` coercion is not modelled. A score is an integer or "non-numeric", which gives the fallback. Numeric strings, floats and booleans that Python's `int()` would accept are not modelled.
- The evaluation prompt texts and the request that sends them are not modelled. In this source, `end_thread` uses the keyword rubric, not the model evaluation.
- Timestamps (`created_at`, `updated_at`, `ended_at`, `last_login`) are not modelled: messages are kept in insertion order, which is the order the routes return.
- Routes other than `dev_login`, `create_thread`, `post_message`, `end_thread` and `get_feedback` are not part of this model: Google login, thread list/get/rename/delete, message list, speech and the index page.
- Object key order is not modelled: `Object.entries` order is the order of the given entry list. Inherited properties are not modelled either, e.g. `formatCategoryName('constructor')` returning a function.
- Dates are not formatted: a subtitle carries the raw timestamp.
- JSX rendering, styling, the VU meter, Login, NewChat, App routing and the AuthContext storage are not part of this model.
- Dashboard.ScoreBand: scores are reals. Non-numeric, `NaN` or missing scores are not modelled.

## Findings

| source | as written | input that shows it | evidently intended | confidence | as-written member | corrected member |
|---|---|---|---|---|---|---|
| frontend/src/pages/ChatLayout.jsx:59 | `threadId === updated.id` compares the route string with the numeric id, so it is never true | route "/7" and an update of thread 7 that closes it: the active metadata keeps status "open" | merge when the route names the updated thread (`threadId === String(updated.id)`) | not executed | ChatLayout.AsWrittenMissesCurrentThread | ChatLayout.MetaAfterUpdate |
| frontend/src/ui/Sidebar.jsx:37 | `activeId === t.id` compares the route string with the numeric id, so no item is ever highlighted | route "/7" with thread 7 in the list | highlight the item the route names | not executed | Sidebar.AsWrittenNeverActive | Sidebar.AtMostOneActive |
| frontend/src/ui/Sidebar.jsx:44 | the same comparison for the closed list | route "/7" with closed thread 7 in the list | highlight the item the route names | not executed | Sidebar.AsWrittenMissesRouteThread | Sidebar.AtMostOneActive |
