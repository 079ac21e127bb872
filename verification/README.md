# RiskRadar job-safety chat: a Dafny model of its core

RiskRadar is a Streamlit page that lets a user chat with one of two hosted assistants,
"OSHA Hazard Violation" and "RiskRadar: Job Safety Assessment App". On the OSHA tab, the user
can also upload a spreadsheet of hazards, pick one de-duplicated row and send it as a prompt.
This project models the parts of `streamlit_app.py` that hold state or logic. Each part is
modelled in the form the script gives it:

- `hazards.dfy` (module `Hazards`): the hazard table and its de-duplication
  (`drop_duplicates().reset_index(drop=True)`), modelled as functions. It also has
  `convert_hazard_to_text`, modelled as a method whose loop appends one `col: value` line per
  column.
- `polling.dfy` (module `Polling`): `wait_on_run` as a method with a `while` loop over an
  oracle of run retrievals. It also has `get_assistant_response`, which creates a thread, posts
  a message, starts a run, waits on it and lists the thread's messages. The remote service is
  a value `Remote`: the run handle it creates, its answers to the successive retrievals, and
  the message list. A request reaches the service through a function `Request -> Remote`, so
  the assistant id that is chosen decides the answer.
- `session.dfy` (module `Session`): `st.session_state.messages` as the class `SessionState`.
  Its `messages` field (of type `History`) maps each tab label to a list of turns, and its methods append to that
  field. The module also holds the two flows that append: a typed question (`main`) and a
  confirmed hazard (`handle_file_upload`). It also has the label-to-assistant table.
- `wrappers.dfy`: the `Option` type. `None` stands for an exception that the script catches.

Every call to the service gets a fresh thread. The model reflects this: the service sees only
the request, never the earlier history. The method `Session.PingOnOshaTab` is a client of
these contracts: a question "ping" answered with "OK" ends the OSHA history with those two
turns and leaves the other history as it was.

The model follows the code in three places where one might expect otherwise:
- The user turn is appended BEFORE the remote call (`streamlit_app.py:74`, `:106`). So a call
  that fails still leaves the user turn in the history. Only the assistant turns are
  missing.
- `df.iloc[n]` also accepts negative positions (counted from the back). Only positions outside
  `[-len, len)` raise IndexError. The picker offers only `0 .. len-1`.
- `wait_on_run` stops on every status except "queued" and "in_progress". That includes
  "requires_action" and "cancelling". The messages are then listed whatever the final status
  was. A failed, cancelled or expired run does not count as an error.

## Model

| member | source | states |
|---|---|---|
| Hazards.Dedup | streamlit_app.py:67 | the de-duplicated rows have no two identical rows, every original row still occurs, every kept row is an original row, and there are at most as many as before |
| Hazards.DedupOrder | streamlit_app.py:67 | the kept rows are listed in the order of their first occurrence in the sheet |
| Hazards.DedupUnique | streamlit_app.py:67 | any duplicate-free sequence of exactly the sheet's rows in first-occurrence order IS the de-duplicated table, so the three properties above fully specify `drop_duplicates` |
| Hazards.DedupFiveRows | streamlit_app.py:67 | a five-row sheet whose rows 2 and 4 are identical gives four records, and record 3 (numbered from 0) is sheet row 5 |
| Hazards.DropDuplicates | streamlit_app.py:67 | the de-duplicated table keeps the columns, stays rectangular and holds exactly the sheet's rows |
| Hazards.ILoc | streamlit_app.py:36 | `iloc[n]` selects a row exactly when `-len <= n < len`; a non-negative `n` selects row `n`, a negative `n` selects row `len + n` |
| Hazards.ConvertHazardToText | streamlit_app.py:34-40 | the loop builds exactly `Hazard {n+1}:` followed by one `col: value` line per column in column order, from row `n` alone; an index outside the table gives IndexError (None); every index the picker offers renders |
| Hazards.HazardTextLineCount | streamlit_app.py:37-39 | when no column name or displayed value holds a line break, the text has exactly 1 + (number of columns) lines |
| Hazards.NatToStringRoundTrip | streamlit_app.py:37 | the hazard number written in the header reads back as that number |
| Polling.PolledStopsAtFirstNonRunning | streamlit_app.py:27-31 | polling stops at the first retrieval that raises or reports a status other than queued/in_progress; the run it returns has that status and the run's ids; polling never ends exactly when every retrieval reports queued or in_progress |
| Polling.WaitOnRun | streamlit_app.py:25-32 | the loop retrieves the run at least once and, if it returns a run, the run's status is neither queued nor in_progress; its outcome is the one polling defines |
| Polling.AssistantResponse | streamlit_app.py:42-53 | messages are listed only when the first retrieval that is not running reported a terminal status; a failure to create the thread, message or run, or a retrieval that raises before any terminal status, yields None; a run that settles (the first retrieval that is not running reports a terminal status) returns the thread's listing whatever that status is, and None when listing raises; the call never returns exactly when every retrieval reports a running status |
| Polling.GetAssistantResponse | streamlit_app.py:42-53 | the method's result is the response defined for what the service did with the request |
| Session.AssistantIdFor | streamlit_app.py:107 | the OSHA label maps to `asst_VtTVcysjzIGyZpshBCQW5AfU`, and every other label maps to `asst_Kr7ozxBcZXSYY1v1oLhqoq3G` |
| Session.AssistantTurns | streamlit_app.py:110-111 | every kept turn has the assistant role and comes from an assistant message; every assistant message gives a turn; there are at most as many turns as messages |
| Session.AssistantTurnsAppend | streamlit_app.py:110-114 | the assistant turns keep the order of the listed messages |
| Session.SessionState.InitHistory | streamlit_app.py:16-17 | the history is created only when absent, with exactly the two labels mapped to empty lists; an existing history is left untouched |
| Session.SessionState.Append | streamlit_app.py:106 | one turn is appended to one label's list; the other lists are unchanged |
| Session.SessionState.AppendResponse | streamlit_app.py:109-114 | after a call that returned messages, one assistant turn per assistant-role message is appended in listed order; after a failed call nothing is appended |
| Session.SessionState.SubmitChat | streamlit_app.py:103-114 | a question appends the user turn and then the response's assistant turns to its own tab only; the request goes to that tab's assistant; earlier turns are not reordered or edited; a failed call leaves only the user turn |
| Session.SessionState.SubmitHazard | streamlit_app.py:61-85 | a rendered and confirmed hazard appends its text and the response's assistant turns to the OSHA history and is sent to the OSHA assistant; an unreadable sheet, an out-of-range pick or no confirmation changes nothing |
| Session.PingOnOshaTab | streamlit_app.py:103-114 | a question "ping" on the OSHA tab that the OSHA assistant answers with "OK" ends the OSHA history with the user turn "ping" and the assistant turn "OK", and leaves the RiskRadar history unchanged |

## Left out

- User interface: all `st.*` widgets and rendering, including `display_messages` (lines 55-59), chat bubbles, spinner and banners.
- API-key entry and storage (lines 9-13, 88-89).
- Network I/O: the OpenAI calls for threads, messages, runs and listing (lines 29, 45-49). What the service does with one request is an input value `Remote`.
- `time.sleep(1)` and any timing or liveness claim: polling is unbounded in the source.
- Polling.WaitOnRun: partial correctness only. The retrievals are a finite oracle, and running out of them while the run is still queued or in progress is reported as `Unsettled`, where the source would keep polling. A flow whose call is still polling (`Blocked`) is modelled as having appended only the user turn, which is the state at that point.
- `pd.read_excel` (line 66): parsing a file is not modelled. The parsed table is an input, and `None` stands for a file that could not be read. The upload path and the `if uploaded_file` test are folded into that input.
- pandas' cell formatting: the `display` function parameter stands for how a value is written in a string. Rows are compared with the cell type's own equality, which is reflexive; a cell value that stands for NaN therefore collapses with an identical row, as pandas does when dropping duplicates. pandas' NaN semantics elsewhere (NaN unequal to itself in arithmetic comparisons) play no part here.
- Column labels are strings and are addressed by position. pandas' non-string and duplicate column labels are not modelled.
- A picker over an empty table returns None, and the script then raises TypeError, which it catches. The model treats this like any pick outside the table: nothing is appended.
- Message content: a listed message is reduced to its role and the text of its first content part. A message with no text part raises in the source (uncaught in `main`, caught after partial appends in the upload path). That case is not modelled.
