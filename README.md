# Chem-E-Care operator triage, modelled in Dafny

Chem-E-Care is a Streamlit dashboard for a chemical facility. Operators log
facility events. A three-question orchestrator classifies an event as
Escalate, Schedule Task or Auto-Resolve and raises an alert for it. Alerts are
styled and timed by a risk table, shown in an Alert Matrix and dismissed one
by one. A language model's reply is parsed into a todo list of
`Event: … | Risk: … | Action: …` lines, and each todo raises an alert for the
first event whose details mention it.

This project models that operator-triage core of `app.py`:

- `Dashboard.Session` is a class standing for the session state. Its four
  `seq` fields are `events`, `orchestratorLog`, `alerts` and `todos`, and its
  methods reassign them the way the page code inserts, assigns and replaces.
- `Triage.Event` is a class whose `status` changes in place. Decisions and
  alerts hold the event object itself, so when the orchestrator writes the
  status, every log entry and alert that holds the event sees the new value.
- `Triage` holds the value records (alerts, decisions, todos), the
  orchestrator's classification, the risk table, the todo-line parser and
  the event summary lines.
- `Format` holds the urgency label, the "… ago" label and the bullet-list
  extractor.
- `Text` holds the Python string built-ins these use: `in`, `split`,
  `join`, `replace`, `strip` and integer formatting.

Clocks, `time.time()` and `random.random()` become parameters. The todo block
draws one alert id and one creation time per todo, given as functions of the
todo's position. The reply text and the stored files come in as values: the
reply as its list of lines, each loaded store as `Some(list)` or `None` when
loading failed.

## Model

| member | source | states |
|---|---|---|
| Triage.Classify | app.py:325-336 | First match wins over the three answers. A safety impact gives Escalate, #ff4d4f and Critical Safety. Otherwise a compliance deviation or an asset risk gives Schedule Task and #faad14, typed Asset Failure Risk when there is an asset risk and Compliance Drift otherwise. Otherwise it is Auto-Resolve, #52c41a and Rounding. Each outcome is stated as an iff over the answers, so the rule is total over the eight triples. |
| Triage.SafetyDominates | app.py:325-328 | With a safety impact, the classification does not depend on the other two answers. |
| Triage.StyleFor | app.py:226-232 | A label that is a key of the risk table gets its row. Any other label gets the "Low" row (alert-rounding, 14400). The result is always a row of the table. |
| Triage.NewAlert | app.py:308-318 | The new alert carries the given label, event, id and creation time and is not dismissed. Its class and urgency are `StyleFor` of the label, and its automatic action is the given one or "". |
| Triage.OrchestratorAlertsFallBack | app.py:325-348 | No alert type the orchestrator produces is a key of the risk table, so every orchestrator alert takes the alert-rounding style and an urgency of 14400. |
| Triage.EventType.Name | app.py:391-393 | Each event type's label, as the entry form offers it, is a single line. |
| Triage.Event.constructor | app.py:402-408 | A new event carries the given id, type, details and time, with status "Pending". |
| Dashboard.Session.constructor | app.py:172-182 | The session starts with the loaded events and todos, or empty stores when loading failed. The decision log and the alerts start empty. The session invariant holds. |
| Dashboard.Session.SubmitEvent | app.py:401-409 | Non-empty details put a new Pending event, carrying the given type, details, id and time, in front of the old events. Empty details change nothing. The other stores are unchanged. |
| Dashboard.Session.AddAlertDynamic | app.py:306-319 | Exactly one alert goes in front and the old alerts follow in order. Its label is the given risk and its event is the given event. Its style is the table lookup with the Low fallback, its automatic action is the given one or "", and it is not dismissed. Every alert still carries a row of the table. |
| Dashboard.Session.ProcessOrchestratorDecision | app.py:321-350 | Returns the outcome and colour of Classify. Exactly one decision goes in front of the log, carrying the event, answers, outcome and colour. The event's status becomes the outcome, as seen through the log entry and the alert. Exactly one alert goes in front, typed by the classification, with urgency 14400, class alert-rounding and an empty automatic action. Events and todos are unchanged. |
| Dashboard.DecideTwice | app.py:338-350 | Two runs on the same event add two log entries and two alerts, so the orchestrator is not idempotent. The status they leave is the outcome of a single run. |
| Triage.DismissAt | app.py:469-470 | Exactly the alert at the index becomes dismissed, and every other alert is unchanged. |
| Triage.DismissIdempotent | app.py:469-470 | Dismissing the same alert twice is the same as dismissing it once. |
| Dashboard.Session.Dismiss | app.py:469-470 | The alerts become the old alerts with that one alert dismissed. Nothing else changes. |
| Triage.ActiveAlerts | app.py:454-455 | The Alert Matrix view is no longer than the alerts, and every alert in it is not dismissed. |
| Triage.ActiveAlertsMembers | app.py:454-455 | An alert is in the view exactly when it is stored and not dismissed. |
| Triage.DismissShrinksView | app.py:454-470 | Dismissing an active alert removes exactly one alert from the view. Dismissing a dismissed one removes none. |
| Dashboard.Session.ActiveView | app.py:454-455 | The loop over the stored alerts yields exactly the view, in stored order. |
| Triage.IsTodoLine | app.py:519 | A line passes the filter exactly when the Risk marker occurs at some index and the Action marker occurs at some index. |
| Triage.TodoLineHasThreeSegments | app.py:519-520 | The Risk and Action markers start at two different bar characters, so a line holding both splits into at least three segments. `parts[2]` always exists and parsing cannot fail. |
| Triage.Field | app.py:521-523 | A field value is empty or has no whitespace at either end. |
| Triage.ParseTodoLine | app.py:519-529 | A line yields a todo exactly when it holds both markers, and the todo is not done. |
| Triage.ParseTodos | app.py:517-529 | A reply yields at most one todo per line, and none of them is done. |
| Triage.ParseTodosSound | app.py:518-529 | Every parsed todo is the todo of some line of the reply. |
| Triage.ParseTodosComplete | app.py:518-529 | Every line of the reply that holds both markers contributes its todo. |
| Triage.ParseTodosCount | app.py:518-529 | A reply made only of todo lines yields one todo per line. A reply with no todo line yields no todos. |
| Triage.FieldRoundTrip | app.py:521-523 | Removing every occurrence of a tag and trimming gives back a value written in the requested format, as long as the value holds no bar character, no copy of the tag and no padding. |
| Triage.FormattedSegments | app.py:512-520 | A line in the requested format splits into its three padded pieces. |
| Triage.FormattedIsTodoLine | app.py:512-519 | A line in the requested format passes the marker filter. |
| Triage.ParseFormattedLine | app.py:512-529 | Parsing a line in the requested format gives back its event, risk and action, not done. |
| Dashboard.Session.ParseTodoReply | app.py:517-529 | The parsing loop yields exactly the todos of the reply's lines, in order. |
| Triage.FirstMatch | app.py:531 | The result is the first event, in store order, whose details contain the text. It is None exactly when no event's details contain it. |
| Triage.EmptyTextMatchesFirst | app.py:531 | An empty event text matches the newest stored event. |
| Triage.TodoAlert | app.py:531-533 | A todo raises an alert exactly when its event text occurs in some event's details. That alert is for the first such event, labelled with the todo's risk, carrying its action as the automatic action, styled by the table and not dismissed. |
| Triage.TodoAlerts | app.py:518-533 | A reply raises at most one alert per todo. Every raised alert is for a stored event, is styled by the table and is not dismissed. |
| Triage.TodoAlertsSnoc | app.py:518-533 | A todo later in the reply puts its alert in front of the alerts of the todos before it. |
| Triage.TodoAlertsNoEvents | app.py:531-533 | With no stored events no todo raises an alert. |
| Triage.TodoAlertsCount | app.py:531-533 | When every todo's event text matches some event, every todo raises exactly one alert. |
| Dashboard.Session.RaiseTodoAlert | app.py:531-533 | One todo's alert, if it has one, goes in front of the old alerts. Nothing else changes. |
| Dashboard.Session.RaiseTodoAlerts | app.py:518-533 | Raising the alerts of the parsed todos in order puts them in front of the old alerts, newest first. |
| Dashboard.Session.IngestTodoReply | app.py:517-537 | The todo list becomes the parsed todos when there is at least one todo, and is unchanged otherwise. The todos' alerts go in front of the old alerts. Events and the decision log are unchanged. |
| Dashboard.Session.SetTodoDone | app.py:541-545 | Only the `done` flag of the todo at the index changes, to the checkbox value. |
| Format.FormatUrgency | app.py:247-254 | Below an hour the label is whole minutes (floor of u/60) and "m". Below a day it is whole hours and "h". From a day on it is whole days and "d". Each amount is a run of digits with no leading zero, stated by its floor bounds, so the label is the one `str` prints. |
| Format.FormatUrgencyExamples | app.py:247-254 | 59, 60, 900, 3600, 14400, 86399 and 86400 read 0m, 1m, 15m, 1h, 4h, 23h and 1d. |
| Format.TimeAgo | app.py:234-245 | From a day on the label is whole days. Over an hour and under a day it is whole hours, and over a minute up to an hour it is whole minutes. Up to a minute it is "Just now". Each amount is a run of digits with no leading zero, stated by its floor bounds, so the label is the one `str` prints. |
| Format.TimeAgoUnderADay | app.py:238-245 | Under a day, the label is the hours, minutes or "Just now" form of the elapsed seconds. |
| Format.TimeAgoLastHourOfDay | app.py:240-241 | Every age over 23 hours and under a day reads "23 hours ago". |
| Format.TimeAgoSecondDay | app.py:238-239 | Every age of at least one day and under two reads "1 days ago". |
| Format.TimeAgoMinuteBoundary | app.py:242-245 | Exactly 60 seconds reads "Just now", and 61 seconds reads "1 minutes ago". |
| Format.TimeAgoHourBoundary | app.py:240-243 | Exactly 3600 seconds reads "60 minutes ago", and 3601 seconds reads "1 hours ago". |
| Format.TimeAgoDayBoundary | app.py:238-241 | 86399 seconds reads "23 hours ago", and 86400 seconds reads "1 days ago". |
| Format.TimeAgoFuture | app.py:237-241 | A timestamp in the future has a negative day count and is labelled by its leftover seconds. Anything up to an hour ahead reads "23 hours ago". |
| Format.Numerals | app.py:239-254 | `str` gives 0, 1, 4, 15, 23 and 60 for the amounts the label lemmas use. |
| Format.Labels | app.py:239-243 | The amounts 1, 60 and 23 followed by the minutes, hours and days words spell the labels the boundary lemmas read. |
| Format.CleanItem | app.py:62 | A cleaned line is empty or has no whitespace at either end. |
| Format.ActionItems | app.py:58-65 | At most one item per line. Every item is non-empty and does not start with whitespace. |
| Format.ActionItemsExact | app.py:61-64 | Every item is the cleaned form of some line, and every line that cleans to something non-empty contributes its item. |
| Format.ExtractTodosFromAi | app.py:58-65 | The loop collects exactly the action items of the lines, in order. |
| Triage.EventLine | app.py:511 | A summary line ends with the event's current status and a closing parenthesis, so a status written by the orchestrator shows in the next summary. It holds no line break when the details and the status hold none. |
| Triage.EventLines | app.py:511 | One summary line per event, each `<type>: <details> (Status: <status>)`. |
| Triage.EventsText | app.py:511 | The summary of no events is empty. Otherwise it starts with the line of the newest event. |
| Triage.EventsTextLines | app.py:511 | The event summary splits back into one line per event, for at most the ten newest events. |
| Text.Contains | app.py:519 | `p in s` holds when `s` starts with `p`, and never when `p` is longer than `s`. |
| Text.ContainsIff | app.py:519 | Python's substring test holds exactly when the pattern occurs at some index. |
| Text.ContainsDropLast | app.py:519 | Appending a character that the pattern does not hold creates no occurrence of the pattern. |
| Text.CountAtLeastTwo | app.py:520 | Two separators at distinct indices count at least twice. |
| Text.Split | app.py:520 | `split` gives one more part than there are separators, and no part holds the separator. |
| Text.Join | app.py:511 | Joining no parts gives the empty string. Joining some parts gives a string that starts with the first part. |
| Text.JoinSplit | app.py:520 | Joining the parts of a split gives back the string. |
| Text.SplitJoin | app.py:511 | Splitting a join of separator-free parts gives back the parts. |
| Text.SplitFree | app.py:520 | A string without the separator splits into itself. |
| Text.SplitAtFirst | app.py:520 | Splitting at the first separator gives the piece before it and the split of the rest. |
| Text.RemoveAll | app.py:521-523 | `replace(tag, '')` never lengthens a string. |
| Text.RemoveAllAt | app.py:521-523 | `replace(tag, '')` deletes an occurrence of the tag wherever it stands, after any text without an earlier occurrence, and goes on after it. So every occurrence is deleted, not only a leading one. |
| Text.RemoveAllFixedIff | app.py:521-523 | `replace(tag, '')` leaves a string unchanged exactly when the tag does not occur in it. When the tag does occur, it shortens the string by at least the tag's length. |
| Text.StripChars | app.py:62 | `strip(chars)` keeps one contiguous slice of the string. Only stripped characters lie outside it, and it neither starts nor ends with one. |
| Text.StripCharsUnique | app.py:62 | Any slice with the properties of a strip is the strip. |
| Text.StripPadded | app.py:521-523 | Stripping padding made of stripped characters from around an unpadded body gives the body. |
| Text.Strip | app.py:521-523 | `strip()` keeps a block of the string that neither starts nor ends with whitespace. |
| Text.NatToString | app.py:239-254 | Integer formatting gives a non-empty run of digits, with a leading zero only for 0. |
| Text.ParseNatToString | app.py:239-254 | Reading the formatted digits back gives the number. |

## Left out

- Streamlit rendering is not modelled: page routing, CSS, HTML, widgets, `st.rerun`, the gauge and dial charts and the Benefits chart. It has no state rules.
- `call_gemini_api` and the API key lookup are not modelled, because they are a network call and a secrets lookup. The model's reply is any list of lines.
- The `api_key and st.session_state.events` guard of the todo block and its `if ai_todo_text` test are not modelled. `IngestTodoReply` is the block once a reply exists. An empty reply has no lines, so it leaves the todos unchanged, as the source does.
- `splitlines()` is not modelled. The reply and the analysis text come in as their lists of lines.
- JSON save and load, and the `isoformat`/`fromisoformat` conversion of times, are file I/O and are not modelled. A load is `Some(list)` or `None`, and `None` gives an empty store. Saving after a change is not modelled.
- `datetime.now()`, `time.time()` and `random.random()` are parameters. Float ids and times are whole seconds (`int`), and the microseconds of a `timedelta` are not modelled. `TimeAgo` takes the elapsed seconds.
- The `alert_types` table, `monthly_reviews`, the static sample data, the prompt text around the event summary and `time.sleep` have no effect on the state rules and are not modelled.
- The AI Analysis page's prompt reuses the event summary (app.py:586). Only the summary is modelled, as `EventsText`.
- Dashboard.Session.Dismiss: takes the position of the alert in the list. The source's button is keyed by the alert's id and marks the alert object being drawn, which is the alert at that position.
- Dashboard.Session.IngestTodoReply: parses every line first and then raises the alerts in order, where the source interleaves them line by line. Parsing touches no session field, so the final state is the same.
- Triage.FirstMatch: the source tests `if matching_event:`. A stored event is a non-empty dict and so always truthy, which makes the test the same as "some event matched".
- Dashboard.Session.SetTodoDone: the source reads the flag with `todo.get('done', False)`. Stored todos always carry the flag in this model, so a todo loaded without one is not modelled.
- Events are not checked for unique ids. The orchestrator's event is any event object, stored or not, as in the source.
