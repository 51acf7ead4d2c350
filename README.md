# LivePoll: poll lifecycle and poll-creation form, modelled in Dafny

LivePoll lets a teacher broadcast a multiple-choice question to students over
Socket.IO, collect answers until a timer runs out, and push live results to
everyone. This project models two parts of it:

- **The server's socket handlers** (`backend/server.js`). The model is one object,
  `Server.PollServer`, whose fields are:
  - `store`: the persisted poll list that `readData`/`writeData` load and save;
  - `activePolls`: the tracker of active polls;
  - `connected`: the ids of the sockets Socket.IO holds open;
  - `socketToUsername`, `usernameToSocketId` and `participants`: the participant structures;
  - `events`: a ghost log of what the server broadcasts.

  Each handler is one atomic method:

  | method | source handler |
  |---|---|
  | `Connect` | `io.on("connection")` |
  | `JoinChat` | `joinChat` |
  | `CreatePoll` | `createPoll` |
  | `SubmitAnswer` | `submitAnswer` |
  | `CloseOnTimer` | the `setTimeout` callback that auto-closes a poll |
  | `KickOut` | `kickOut` |
  | `Disconnect` | `disconnect` |

  The pure work the handlers do on poll records is in module `Polls`: option
  normalisation, the timer default, lookup by id and by option text, the vote
  increment, and the `{ text: votes }` tally.
- **The teacher's poll-creation form**
  (`frontend/src/pages/teachers-landing/TeacherLandingPage.jsx`). The page state is
  the class `TeacherForm.TeacherLandingPage`, with the option-editing handlers, the
  validator `Validate` (a pure function) and the request `askQuestion` sends.

Supporting modules:

- `JsString` models JavaScript's `String.prototype.trim`.
- `OrderedSet` models a JavaScript `Set` of names: no duplicates, insertion order kept.
- `Wrappers` provides `Option`, used for `undefined`/`null` fields.

Invariants kept by every server method (`PollServer.Valid`):

- poll ids are unique;
- only a poll whose stored record is open is in `activePolls`;
- a tracked poll has a scheduled timer exactly when its timer is positive;
- the participant list has no duplicates;
- the participant list holds exactly the names that `usernameToSocketId` binds;
- no socket is bound to an empty name;
- only connected sockets are bound to a name.

The form keeps its option ids equal to 1, 2, … by position.

Behaviour of the code that the model keeps, and that a reader might not expect:

- **Restarts.** The data file survives a restart, but `activePolls` and the timers do
  not. A poll that was still open when the server stopped stays open in the file
  with no timer: it accepts votes forever (`Server.RestartedColorPoll`). The server
  is therefore built from whatever poll list the file holds.
- **Votes and the closed flag.** `submitAnswer` checks the `closed` flag of the stored
  poll, not the tracker's. A poll whose timer is negative gets no timer, so it never
  closes and accepts votes forever.
- **Duplicate option texts.** A vote goes to the first option with the submitted text,
  but the tally reports the last option with that text. With duplicate texts, the
  reported count therefore never moves (`Polls.DuplicateTextHidesVote`).
- **The `__proto__` key.** The tally is a plain object. Assigning a number to its
  `__proto__` property is ignored, so an option with that text has no entry in the
  tally. The model keeps this (`Polls.SetKey`, `Polls.TallyMeaning`).
- **Repeat votes.** Nothing stops one username from voting more than once. The
  username must only be non-empty.
- **Name takeover.** A second socket joining under a taken name takes the name over.
  The first socket keeps its binding. That socket's later disconnect then removes the
  name from the participants and from `usernameToSocketId`, even though the name
  belongs to the second socket.
- **Re-joining under a new name.** A socket that joins again under another name
  leaves its first name in the participant list.
- **Kicking out.** `disconnect(true)` runs the kicked socket's `disconnect` handler
  at once, inside `kickOut`, before the name is removed. So when that socket is
  still connected, two participant lists are broadcast. The first one lacks the
  name the socket is bound to now, and the second one also lacks the kicked name.
  These are two different names when the socket had re-joined under another name.
  When the socket had already gone, only the kicked name is removed.
- **No explicit close.** The code has no explicit close. Polls close only when their
  timer expires, and creating a new poll does not close the previous one.

## Model

| member | source | states |
|---|---|---|
| `JsString.TrimStart` | frontend/src/pages/teachers-landing/TeacherLandingPage.jsx:41 | the result is a suffix of the input, the dropped prefix is all whitespace, and the result does not start with whitespace |
| `JsString.TrimEnd` | frontend/src/pages/teachers-landing/TeacherLandingPage.jsx:41 | the result is a prefix of the input, the dropped suffix is all whitespace, and the result does not end with whitespace |
| `JsString.TrimEmptyIffBlank` | frontend/src/pages/teachers-landing/TeacherLandingPage.jsx:41-43 | `s.trim()` is empty exactly when every character of `s` is whitespace |
| `JsString.Trim` | frontend/src/pages/teachers-landing/TeacherLandingPage.jsx:41-43 | `s.trim()` is no longer than `s`, and is empty or starts and ends with a non-whitespace character |
| `JsString.TrimIsMiddle` | frontend/src/pages/teachers-landing/TeacherLandingPage.jsx:41-43 | `s.trim()` is one contiguous part of `s`, with only whitespace before and after it |
| `OrderedSet.Add` | backend/server.js:67 | `participants.add`: the elements grow by exactly the name, a present name changes nothing, the old order is a prefix of the new one, and no duplicates appear |
| `OrderedSet.Delete` | backend/server.js:205 | `participants.delete`: the elements lose exactly the name, an absent name changes nothing, no duplicates appear, and the length drops by one when the name was present |
| `OrderedSet.DeleteKeepsOrder` | backend/server.js:205 | deleting a name that occurs removes exactly that entry; the other names keep their order |
| `OrderedSet.AddThenDelete` | backend/server.js:215-222 | a name not already in the list that joins and then leaves restores the previous participant list, order included |
| `Polls.EffectiveTimer` | backend/server.js:101 | `Number(timer) \|\| 60`: the timer is never 0; a non-zero number is kept; 0 and NaN give 60 |
| `Polls.NoVotesTotalZero` | backend/server.js:94 | options that all have 0 votes have a vote total of 0 |
| `Polls.NormalizeOptions` | backend/server.js:90-95 | normalisation keeps the length and order; every option has 0 votes; a missing id becomes its position plus 1; missing text becomes ""; missing `correct` stays null |
| `Polls.NewPoll` | backend/server.js:97-105 | a new poll has the given id, question, teacher and creation time; it is not closed; its options are the normalised options sent (none when the field is missing), so it has no votes; its timer is `Number(timer) \|\| 60`, never 0 |
| `Polls.FindIndex` | backend/server.js:163 | `Array.prototype.find`: the result is the first position that satisfies the predicate, or none when no element does |
| `Polls.FindPoll` | backend/server.js:163 | lookup by poll id: the first stored poll with that id, or none when no stored poll has it |
| `Polls.FindOption` | backend/server.js:174 | case-sensitive exact text match: the first option with that text, or none when no option has it |
| `Polls.OpenIdsAppend` | backend/server.js:108-109 | appending a poll adds its id to the open ids exactly when the poll is not closed |
| `Polls.AppendFreshId` | backend/server.js:108-109 | appending a poll with an unused id keeps ids unique, and a lookup of that id then finds the new last position |
| `Polls.FindPollAppendOther` | backend/server.js:109 | appending a poll under another id leaves a lookup of `id` where it was |
| `Polls.OpenIdsUpdate` | backend/server.js:143 | replacing a stored poll by one with the same id keeps ids unique; afterwards the id is open exactly when the new record is open |
| `Polls.CastVote` | backend/server.js:179 | adds one vote to the chosen option; every other option and every other field of the poll, `closed` included, stay the same; the poll's vote total grows by exactly 1 |
| `Polls.VoteAddsOne` | backend/server.js:179 | raising one option's count by one raises the total by exactly one |
| `Polls.SetKey` | backend/server.js:186 | `voteMap[text] = votes`: every other key keeps its entry; no key other than `text` appears; `text` then maps to `votes`, except that `__proto__` changes nothing |
| `Polls.Tally` | backend/server.js:134-137 | the vote map built from the options never has a `__proto__` key |
| `Polls.TallyHasText` | backend/server.js:185-186 | every option text other than `__proto__` is a key of the tally |
| `Polls.TallyKeyIsText` | backend/server.js:185-186 | every key of the tally is some option's text, and never `__proto__` |
| `Polls.TallyLastWins` | backend/server.js:134-137 | a text's entry holds the votes of the last option with that text |
| `Polls.TallyMeaning` | backend/server.js:185-189 | the tally's keys are exactly the option texts except `__proto__`; each maps to the votes of the last option with that text |
| `Polls.TallyOtherTexts` | backend/server.js:179-186 | changing one option's votes leaves the tally's keys as they were, and every entry for another text too |
| `Polls.VoteShowsInTally` | backend/server.js:174-189 | a vote for a text other than `__proto__` that no later option repeats raises that text's tally entry by one and leaves the other entries unchanged |
| `Polls.DuplicateTextHidesVote` | backend/server.js:174-189 | when a later option repeats the voted text, that text's tally entry does not change after the vote |
| `Polls.LastWithText` | backend/server.js:134-137 | every option has a last option with the same text at or after it |
| `Server.GuestName` | backend/server.js:64 | the guest name is "guest_" followed by at most the first 6 characters of the socket id |
| `Server.Truthy` | backend/server.js:159 | definition only: JavaScript's truth test on an optional string field, false for a missing field and for ""; its consequences are stated by `JoinName` and by `SubmitAnswer`'s `MissingField` case |
| `Server.JoinName` | backend/server.js:64 | a non-empty requested name is used as it is; a missing or empty one becomes the guest name; the result is never empty |
| `Server.ComputeTally` | backend/server.js:185-186 | the `forEach` loop that builds the vote map computes exactly `Tally` of the options |
| `Server.RemoveNameKeepsConsistent` | backend/server.js:205-206 | removing a name from the participants and from `usernameToSocketId`, and unbinding any sockets, keeps the participant invariant (also the removal at lines 218-220) |
| `Server.CreateKeepsConsistent` | backend/server.js:108-113 | storing and tracking a new open poll under a fresh id keeps the poll invariant |
| `Server.CloseKeepsConsistent` | backend/server.js:130-145 | a tracked poll is found in the store and is still open; closing its record and no longer tracking it keeps the poll invariant, and the id then finds the same record |
| `Server.PollServer.constructor` | backend/server.js:25-28 | the server starts from the poll list saved in the data file, with no poll tracked as active, no connected socket, no participants and nothing emitted |
| `Server.PollServer.Connect` | backend/server.js:59 | a new connection adds its socket id to the connected sockets and changes nothing else |
| `Server.PollServer.JoinChat` | backend/server.js:63-74 | binds socket to name and name to socket, adds the name to the participants once (a re-join does not duplicate it), broadcasts the list, keeps the invariant, and touches no poll state |
| `Server.PollServer.CreatePoll` | backend/server.js:85-153 | appends the normalised, open poll to the end of the store; registers it as active, with a timer exactly when its timer is positive; emits `pollCreated`; later lookups of the id find it |
| `Server.PollServer.SubmitAnswer` | backend/server.js:156-193 | a missing field, an unknown poll, a closed poll or an unmatched text each leaves the store unchanged and emits nothing; otherwise one vote goes to the first option with exactly that text, nothing else in the store changes, and the poll's tally is emitted |
| `Server.PollServer.CloseOnTimer` | backend/server.js:121-146 | does nothing for a poll no longer active; otherwise emits the stored tally once, marks the stored poll closed and stops tracking it, so every later vote for it is rejected (later polls do not move its lookup: `Polls.FindPollAppendOther`) |
| `Server.PollServer.KickOut` | backend/server.js:196-212 | when the name is bound, sends the removal notice to its socket and, if that socket is still connected, runs its disconnect handler at once (unbinding the socket and its current name, with a broadcast); always removes the kicked name from the participants and from `usernameToSocketId` and broadcasts the list |
| `Server.PollServer.DropName` | backend/server.js:205-208 | removes the name from the participants and from `usernameToSocketId`, present or not, and broadcasts the resulting list |
| `Server.PollServer.Disconnect` | backend/server.js:215-224 | the socket is no longer connected; a socket with a bound name loses that name from the participants and both maps, and the list is broadcast; a socket without one changes nothing else |
| `Server.TwoOptionTally` | backend/server.js:185-186 | two options with distinct texts, neither of them `__proto__`, give a tally with exactly those two entries |
| `Server.OpenColorPoll` | backend/server.js:85-116 | creating the poll "Color?" with options "Red" and "Blue" and a timer of 2 stores it with ids 1 and 2, no votes and a scheduled timer |
| `Server.VoteOnColorPoll` | backend/server.js:156-189 | two votes for "Red" and one for "Blue" give the stored counts 2 and 1 and the tally { Red: 2, Blue: 1 } |
| `Server.ColorPollScenario` | backend/server.js:121-171 | after those votes, closing on the timer emits { Red: 2, Blue: 1 } once more as the final result and stores the poll closed; a later vote is rejected as closed and emits nothing; the whole emitted log is given |
| `Server.RestartedColorPoll` | backend/server.js:25-28 | on a server restarted with the open poll "Color?" in its data file, the poll is not tracked as active, so no timer callback is left to close it, and a vote is still counted |
| `TeacherForm.OptionTrimsEmptyIffBlank` | frontend/src/pages/teachers-landing/TeacherLandingPage.jsx:43 | an option's trimmed text is empty exactly when the text is blank |
| `TeacherForm.Message` | frontend/src/pages/teachers-landing/TeacherLandingPage.jsx:41-45 | every rejection has a non-empty message, so an empty error means the form passed |
| `TeacherForm.Validate` | frontend/src/pages/teachers-landing/TeacherLandingPage.jsx:40-48 | each rejection holds exactly when its check fails and every earlier check passes, in this order: blank question, fewer than two options, a blank option, no option marked correct; acceptance holds exactly when all four checks pass |
| `TeacherForm.NormalizedPayload` | frontend/src/pages/teachers-landing/TeacherLandingPage.jsx:53 | the form sends its options one for one, with id, text and `correct` all present, and the server's normalisation of them keeps every id, text and `correct` marker and sets the votes to 0 |
| `TeacherForm.AcceptedFormMakesUsablePoll` | frontend/src/pages/teachers-landing/TeacherLandingPage.jsx:50-56 | options the validator accepts become, on the server, at least two options numbered 1, 2, …; none is blank, at least one is correct, and all have 0 votes |
| `TeacherForm.TeacherLandingPage.constructor` | frontend/src/pages/teachers-landing/TeacherLandingPage.jsx:14-17 | the page starts with an empty question, one empty unmarked option with id 1, timer "60" and no error |
| `TeacherForm.TeacherLandingPage.HandleQuestionChange` | frontend/src/pages/teachers-landing/TeacherLandingPage.jsx:21 | sets the question and nothing else |
| `TeacherForm.TeacherLandingPage.HandleTimerChange` | frontend/src/pages/teachers-landing/TeacherLandingPage.jsx:22 | sets the timer and nothing else |
| `TeacherForm.TeacherLandingPage.HandleOptionChange` | frontend/src/pages/teachers-landing/TeacherLandingPage.jsx:24-28 | changes only the text of the option at the index; the length, that option's other fields and every other option stay the same |
| `TeacherForm.TeacherLandingPage.HandleCorrectToggle` | frontend/src/pages/teachers-landing/TeacherLandingPage.jsx:30-34 | changes only the `correct` marker of the option at the index; the length, that option's other fields and every other option stay the same |
| `TeacherForm.TeacherLandingPage.AddOption` | frontend/src/pages/teachers-landing/TeacherLandingPage.jsx:36-38 | appends exactly one option `{ id: length + 1, text: "", correct: null }` and leaves the existing ones unchanged; ids stay 1, 2, … by position |
| `TeacherForm.TeacherLandingPage.ValidateForm` | frontend/src/pages/teachers-landing/TeacherLandingPage.jsx:40-48 | answers true exactly when `Validate` accepts; the error then becomes "", and otherwise it becomes the first failing check's message, so the error is empty exactly when the form passed; keeps the page invariant |
| `TeacherForm.TeacherLandingPage.AskQuestion` | frontend/src/pages/teachers-landing/TeacherLandingPage.jsx:50-57 | sends `createPoll` with the question, options, timer and teacher name exactly when the form validates; otherwise sends nothing |

## Left out

- The Socket.IO and HTTP transport, the Express REST routes (`/polls`,
  `/polls/:username`) and the teacher-login stub. They are I/O with no poll logic;
  emits appear only as the abstract `events` log.
- The chat relay (`chatMessage`): pure fan-out.
- The data file. `backend/dataStore.js` is not part of this model: the store is an
  in-memory sequence. Read and write failures, the `try`/`catch` around them and the
  file's initialisation are left out.
- Interleaving of handlers at their `await` points. Each handler is one atomic step,
  so races between concurrent `readData`/`writeData` calls are not modelled.
- `setTimeout` scheduling. Expiry is the explicit `CloseOnTimer` step, and the tracker
  records only whether a timer was scheduled, not its handle. The active entry's own
  `closed` flag is not modelled: it is set and the entry removed in the same step,
  and nothing reads it.
- `uuidv4()`, `Date` and `Number(pollData.timer)` are parameters. `Number` of a value
  that is fractional or infinite is not modelled; only integers and NaN are.
- Which sockets receive an emit. `KickedOut` is logged even when its socket has
  already gone and nobody receives it.
- Payload values of unexpected JavaScript types, such as a number where a string is
  expected. Fields are modelled as present strings or absent.
- The copy-then-mutate of `handleOptionChange` and `handleCorrectToggle` mutates the
  element object shared with the previous array. The model updates a value sequence,
  so this aliasing is not captured; React discards the old array anyway.
- Server.PollServer.constructor: requires the saved poll ids to be unique, because
  every saved poll got its id from `uuidv4`.
- Server.PollServer.CreatePoll: requires a poll id not already stored, because
  server.js relies on `uuidv4` giving fresh ids.
- Server.PollServer.Connect: requires a socket id not already connected, because
  Socket.IO gives every connection a new id.
- Server.PollServer.JoinChat: requires a connected socket, because Socket.IO runs a
  socket's handlers only while it is connected.
- Server.PollServer.Disconnect: requires a connected socket, because Socket.IO runs
  a socket's `disconnect` handler once, when it goes.
- Server.PollServer.CloseOnTimer: requires that a tracked poll had its timer
  scheduled, because only such polls get the callback. The fallback to the active
  entry's own copy of the poll, when the stored poll is missing, cannot happen under
  the invariant. After the call, the stored poll is promised closed only when the
  poll was tracked: after a restart an open stored poll may not be tracked, and
  then nothing closes it.
- TeacherForm.AcceptedFormMakesUsablePoll: takes as its premise what `Validate`'s
  acceptance means (at least two options, none blank, one marked correct), not the
  call `Validate(...) == Accepted`.
- Rendering, routing, the student pages, poll history, the percentage and
  progress-bar arithmetic (floating point), the client countdown, `socket.js` and
  the route guards: UI code with no poll-lifecycle logic.
