# Proposal page: dual-write recorder, admin read fallback, page state machines

A Dafny model of the decision logic in `script.js`, the single script behind a
"will you accept" proposal page and its password-gated admin dashboard.

- **Store** — the hosted database's configuration check at start-up
  (placeholder credentials mean "not configured", and so does an initialisation
  that throws), the device-local log slot as the four ways the code can find it
  (`Missing`, `Malformed`, `NonArray`, `Arr(entries)`), the documents of the
  remote `responses` collection, and the `Mobile`/`Desktop` device label
  derived from the user-agent string.
- **Recorder** — `saveAnswer(choice)`: the local read-parse-append-write,
  which swallows storage errors, followed by the remote `add`. The function
  returns `false` with no remote call when there is no `db`, and otherwise
  `true` exactly when the `add` resolves.
- **Reader** — `loadResponses()`: a non-empty remote snapshot is shown
  row for row, in order, and the local log is then not read. A missing `db`, an
  empty snapshot or a thrown query all fall back to the local log, newest first.
  The final status separates three groups: an absent or empty stored value
  ("no saved answer"), a non-array or empty list ("no saved answers"), and a
  storage read failure, unparsable text or an entry that cannot be rendered
  ("could not read"). Each row gets its label, choice text, choice class and
  time cell. A stored choice that is truthy but not a string makes the render
  loop throw at that row.
- **ProposalPage** — the reject/accept click handlers over the page state
  `(rejectClicks, isSubmitted)`: the playful-line index, when the reject
  button hides, the answer each click records, and the submitted flag that
  turns both buttons off.
- **AdminGate** — the login form (empty / secret / wrong) and the refresh
  button, which loads only once authenticated.
- **Scenarios** — lemmas that relate saving to loading.

The stores and the outside world are inputs, not code. The local slot's
contents, storage faults, the remote snapshot or query failure, the outcome of
the remote `add`, the clock and the user agent are all parameters. The load
path returns a view and no new local value: reversing a `slice()` copy leaves
the stored list as it was. Every handler runs atomically.

Behaviour worth knowing:
- Malformed local text is not handled exactly like an absent log. Both give an
  empty table with the empty state shown. The malformed case ends with the
  "could not read" status, and the absent case with "no saved answer".
- The warning for a missing `db` and the messages for an empty or failed remote
  query are overwritten by the local phase's final status in the same
  synchronous run, so only the final status is modelled. The `queried` and
  `localRead` flags record which path was taken.
- The `try` around the remote step also catches a throw from its render loop.
  When a document's choice is truthy but not a string, the rows already
  appended stay, and the local fallback appends its own rows after them. The
  table then mixes cloud and device rows, and the local phase decides the
  status. A throw in the local render loop likewise leaves the newer rows in
  place, but shows the empty state and the "could not read" status.
- The playful-line fallback (`playfulLines[index] || ...`) is never reached.
  The index is always in range, and the fallback text is the same as the last
  line anyway.

## Model

| member | source | states |
|---|---|---|
| Text.Contains | script.js:78 | the substring test used for each alternative of the device regular expression is true exactly when the token occurs at some position of the user agent |
| Text.LowerIsAcceptIff | script.js:334-338 | lower-casing and comparing with "accept" is the same as a case-insensitive, letter-by-letter match against "accept" |
| Store.Start | script.js:19-39 | `db` is set, and `firebaseConfigured` is true, exactly when apiKey is not "YOUR_API_KEY", projectId is not "YOUR_PROJECT_ID" and initialisation does not throw; the two flags always agree |
| Store.ShippedConfigIsUnconfigured | script.js:7-24 | the configuration as shipped never yields a `db`, whatever initialisation would do |
| Store.OnlyKeyAndProjectMatter | script.js:21-24 | two configurations that agree on apiKey and projectId start up identically; the other credential fields play no part in the check |
| Store.DeviceLabel | script.js:78 | the device field is "Mobile" exactly when the user agent contains Mobile, Android, iPhone or iPad, and "Desktop" otherwise |
| Recorder.AppendLocal | script.js:49-64 | with working storage the new stored list is the prior parsed list (empty when missing, malformed or not an array) followed by exactly one `{choice, time}`; when reading or writing throws, the slot is left as it was |
| Recorder.SaveAnswer | script.js:45-87 | the local append always happens; the remote `add` is issued exactly when `db` is set; the result is true exactly when `db` is set and the `add` resolves; the collection gains exactly the new document then, and is otherwise unchanged |
| Recorder.SaveAppendsOneLocalEntry | script.js:49-61 | whatever the remote store does, a save with working storage makes the parsed log the old one plus the new entry at its end |
| Recorder.UnusablePriorValueStartsFresh | script.js:50-59 | a missing, empty, malformed or non-array prior value leaves a log of length one holding just the new entry |
| Recorder.NoDbSavesLocallyOnly | script.js:67-71 | with no `db`, the result is false and no remote call is made, yet the local log has already grown by one |
| Recorder.ResultReportsRemoteGrowth | script.js:73-86 | with a `db`, the returned value is true exactly when the remote collection grew by one document |
| Reader.ClassOfIsCaseInsensitiveAccept | script.js:334-338 | a row's choice gets the accept class exactly when it is "accept" in any letter case, and the reject class otherwise; "Accept" and "Reject" get the classes they name |
| Reader.ChoiceCell | script.js:333-338 | a non-empty string choice is shown as it is and classed by whether it is "accept" in any letter case; any falsy choice is shown as a dash in the reject class |
| Reader.DocRow | script.js:326-347 | a document's row carries the mobile label exactly when its device field is "Mobile" (the desktop label otherwise, never the device-owner label), the choice cell of its choice, and a dash time cell exactly when it has no server time |
| Reader.EntryRow | script.js:402-421 | a local entry's row always carries the device-owner label, the choice cell of its choice, and a dash time cell exactly when its time is empty |
| Reader.RemoteRows | script.js:324-355 | the loop throws exactly when some document's choice cannot be rendered; the rows are those of the documents before the first such one, the i-th row made from the i-th document, and all of them when none throws |
| Reader.LocalRows | script.js:398-429 | the loop throws exactly when some entry's choice cannot be rendered; the i-th row is made from the i-th entry counted from the end, up to the newest entry that cannot be rendered, and all of them when none throws |
| Reader.LocalFallback | script.js:376-437 | the rows are those the local loop appends; a storage read failure, unparsable text or an entry that cannot be rendered give "could not read", an absent value gives "no saved answer", a non-array or empty list gives "no saved answers", and a non-empty list that renders gives "loaded from this device"; the empty state shows exactly when the status is an error |
| Reader.LoadResponses | script.js:302-438 | the remote store is queried exactly when `db` is set; the local log is read exactly when the remote step does not finish with a full table; a non-empty snapshot that renders gives exactly its rows in order and a count status; otherwise the rows are the remote loop's partial rows followed by the local loop's rows, and the local phase's outcome decides the status; the empty state shows exactly when the status is an error, a success always has rows, and when nothing throws while rendering the empty state shows exactly when there are no rows |
| Reader.FallbackIgnoresWhyRemoteGaveNothing | script.js:306-376 | a missing `db`, a thrown query and an empty snapshot all lead to the same local-fallback rows and the same final status |
| Reader.BrokenDocMergesSources | script.js:315-373 | when document k is the first whose choice cannot be rendered, the table is the rows of documents 0 to k-1 followed by exactly the rows a load without a remote store shows, with that load's status and empty state |
| Reader.CloudRowsNewestFirst | script.js:319-347 | when the query returns documents in descending time order and all of them render, the rows' time cells descend too |
| ProposalPage.PlayfulIndexInRange | script.js:134-153 | from the first reject click on, the requested index is in range (clicks 1 to 3 show lines 0 to 2, later clicks the last line), so the fallback line is never needed |
| ProposalPage.OnReject | script.js:139-174 | once submitted, a reject click changes nothing; otherwise the count grows by exactly one, the submitted flag stays false, the shown line is line min(count, 4) - 1, the button is hidden exactly from the third click on, and "Reject" is recorded with the status reporting whether it reached the cloud |
| ProposalPage.OnAccept | script.js:176-193 | once submitted, an accept click changes nothing; otherwise "Accept" is recorded, the status reports whether it reached the cloud, and the page becomes submitted with the reject count unchanged |
| ProposalPage.SubmittedIsFinal | script.js:139-177 | from a submitted page, any sequence of clicks leaves the page state and both stores unchanged |
| ProposalPage.RunCountsRejectsUntilAccept | script.js:139-193 | from an unsubmitted page, the page ends submitted exactly when some click was an accept, and the reject count grows by exactly the reject clicks made before the first accept |
| ProposalPage.RunFromInitial | script.js:117-193 | from the page as it loads (no reject clicks, not submitted), the state after any clicks has as its count exactly the reject clicks before the first accept, and is submitted exactly when some click was an accept |
| ProposalPage.RunGrowsLocalLog | script.js:139-193 | with readable local storage whose writes succeed, the stored log ends as the prior parsed log followed by a "Reject" entry for each reject click before the first accept and then an "Accept" entry for that accept, each with its click's time; its length grows by exactly that many entries |
| AdminGate.Submit | script.js:277-295 | a load starts exactly when the submitted value equals the secret, which also authenticates, reveals the dashboard and clears the message; an empty value asks for the password, any other value reports it wrong, and both leave the gate as it was |
| AdminGate.Refresh | script.js:297-300 | refresh changes no state and starts a load exactly when authenticated |
| AdminGate.LoadsOnlyWhenAuthed | script.js:277-300 | no event starts a load while leaving the gate locked |
| AdminGate.AuthedIffSecretSubmitted | script.js:269-300 | after any events, the gate is open exactly when it was open already or the secret was submitted at some point; nothing closes it again |
| AdminGate.RefreshLoadsOnlyAfterSecret | script.js:269-300 | from a freshly loaded admin page, a refresh loads exactly when the secret was submitted earlier |
| Scenarios.SavedAnswerShowsFirst | script.js:376-432 | after a save with working storage, a load whose remote step gives no rows shows the new answer first, followed by the older entries newest first; the status is a success exactly when every older entry renders |
| Scenarios.SavedDocShowsDevice | script.js:74-79 | a successful save appends its document at the end of the collection, and that document's row has the mobile label exactly when the saving browser's user agent contains a mobile token, with the saved choice and the server time |
| Scenarios.LocalScenario | script.js:398-429 | with no `db` and a local log of Reject at t1 then Accept at t2, the table shows the accept at t2 and then the reject at t1 |
| Scenarios.RemoteScenario | script.js:319-359 | a snapshot of two documents, the later-saved one first as the descending query returns them, is shown as exactly those two rows in that order with descending times and a count of two, and the local log is not read |
| Scenarios.CloudAndLocalRowsMix | script.js:315-432 | a snapshot [d, bad] whose second choice cannot be rendered, over a local log [e], shows d's row then e's row with the "loaded from this device" status |
| Scenarios.BrokenEntryKeepsNewerRows | script.js:398-437 | a local log whose older entry cannot be rendered keeps the newer entry's row, yet reports "could not read" and shows the empty state |
| Scenarios.MalformedIsNotMissing | script.js:377-437 | malformed local text and an absent key both give an empty table, but with different final statuses |

## Left out

- DOM work: element creation, CSS class toggling, visibility and the
  `setTimeout` that finally hides the reject button. Only the abstract row and
  status outputs and the `hideReject` flag are kept.
- The hosted-database SDK itself. Initialisation, `add` and the ordered query
  are inputs (`InitOutcome`, `AddOutcome`, `RemoteRead`); the descending-time
  order is taken as given in the snapshot.
- Clocks and formatting: `toISOString`, server timestamps, `toLocaleString`.
  Times are opaque values, and the message column is a fixed dash.
- JSON parsing and serialisation. The stored value is the four-way
  `LocalRaw`, and stored items are `{choice, time}` records whose choice is a
  string, a falsy value or a truthy non-string. Array items that are not
  objects (a `null` item also makes the render loop throw part-way) are not
  modelled.
- A storage read failure is a lasting state of the slot (`Unreadable`), the
  same for every save and load. A store that fails once and then recovers is
  not modelled.
- Remote time values are a server time or nothing; a truthy time without
  `toDate`, which also shows a dash, is folded into "nothing".
- Reader.ClassOfIsCaseInsensitiveAccept: lower-casing covers ASCII letters
  only. The full Unicode mappings of `toLowerCase` are not modelled, since no
  choice the page writes depends on them.
- The accept-button scale and font-size arithmetic, which is floating point.
- The celebration animation and its timer, and the accept sound.
- The `try`/`catch` around the post-accept DOM work. Any DOM failure there
  only changes the status text; `isSubmitted` is already set.
- Concurrency. A second click during the `await` in a handler is not
  modelled, and each handler runs to completion.
- Console logging and the wording of status messages. Statuses are tags; the
  proposal page's status is its choice plus the cloud flag.
- The proposal page's start-up warning, which is shown exactly when the store
  is not configured.
- Page routing by `data-page`.
