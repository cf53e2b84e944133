# Conversation history store of the Q&A chatbot statistics scripts

This project models the conversation simulator of the chatbot's statistics
scripts. `simulate_conversations()` loads a JSON statistics document. A
missing or unparsable file counts as a document with an empty `history`. The
function then cuts a history of more than 50 entries down to its 50 most
recent entries and appends one newly generated session record. Finally it
stores the mean `user_satisfaction` of the resulting history as
`average_satisfaction`.

The model has three modules:

- `Sessions` (sessions.dfy) holds the session record, the `INTENTS` labels and
  the resolution statuses. It also holds the generator. The generator's random
  draws and its clock reading are parameters.
- `History` (history.dfy) describes the update on values. `Retained` is the
  cut, `Recorded` is the cut followed by the append, and `TotalSatisfaction`
  and `MeanSatisfaction` are the aggregate. The lemmas about repeated updates
  are also here.
- `Store` (store.dfy) models the loaded document, the dict that the source
  mutates, as the class `Document`. Its constructor `Load` is the load
  fallback. Its method `RecordSession` does the in-place update and is proved
  against `History`. `SimulateConversations` is one whole run.

The cut happens before the append, so after an update the history holds up to
51 entries, not 50, although the comment at simulate_conversations.py:24 says
only the last 50 are kept. The model follows the code:
`History.RecordedAtRetain` proves that a 50-entry history grows to 51 and that
the mean is taken over all 51.

The average is modelled exactly as a Dafny `real`, which is an exact rational.
The source rounds it to two decimals.

## Model

| member | source | states |
|---|---|---|
| Sessions.MakeSession | simulate_conversations.py:29-36 | a session built from draws in the generator's ranges (messages 2..15, an intent from INTENTS, response time 50..800 ms, satisfaction 1..5, a status from Resolved/Escalated/Pending) is valid and carries the given timestamp and rating |
| Sessions.ValidSessionIsGenerated | simulate_conversations.py:29-36 | conversely, every valid session is what the generator produces for some choice of intent and status indices |
| History.Retained | simulate_conversations.py:25-26 | the cut keeps min(length, 50) entries; they are a suffix of the history in their original order, so the oldest go first; a history of at most 50 entries is left untouched |
| History.Recorded | simulate_conversations.py:25-38 | after cut and append the length is min(old length, 50) + 1, so between 1 and 51; the new session is last; every earlier entry is one of the old history's most recent entries, in order |
| History.MeanTimesLength | simulate_conversations.py:41-43 | the exact average times the history length equals the sum of user_satisfaction over the history |
| History.TotalSatisfactionAppend | simulate_conversations.py:41 | the satisfaction sum of a concatenation is the sum of the two parts' sums |
| History.TotalSatisfactionBounds | simulate_conversations.py:34-41 | when every rating is in 1..5, the sum lies between the length and five times the length |
| History.MeanWithinScale | simulate_conversations.py:34-42 | a non-empty history whose user_satisfaction ratings are all in 1..5 has its average in [1, 5], whatever its other fields hold |
| History.RecordedAllValid | simulate_conversations.py:25-38 | when every loaded record and the new session are valid, every record of the updated history is valid |
| History.RecordedRatingsInScale | simulate_conversations.py:25-38 | when the entries the cut keeps and the new session are rated in 1..5, every entry of the updated history is, whatever the evicted entries were rated |
| History.RecordedMean | simulate_conversations.py:38-43 | the new average is the kept entries' rating sum plus the new session's rating, divided by the kept length plus one |
| History.RecordedFromEmpty | simulate_conversations.py:17-43 | from an empty history the update leaves exactly the new session, and the average equals its rating |
| History.RecordedAtRetain | simulate_conversations.py:25-43 | a history of exactly 50 entries is not cut: the result is the history followed by the session, 51 entries long, averaged over all 51 |
| History.RecordedIsLatest | simulate_conversations.py:25-38 | the result of one update is the 51 most recent entries of the old history with the session added at the end |
| History.RecordAllKeepsLatest | simulate_conversations.py:25-38 | after one or more updates the history is exactly the 51 most recent entries of the old history followed by all new sessions, so eviction is oldest first over any number of runs |
| History.RecordAllBounded | simulate_conversations.py:25-38 | after one or more updates the history is never empty, never longer than 51, and ends with the last session recorded |
| Store.Document.Load | simulate_conversations.py:12-21 | a missing or unparsable file gives a document with an empty history and no other keys; a parsed file is taken as it is |
| Store.Document.RecordSession | simulate_conversations.py:25-43 | a document without a history fails and is left unchanged; otherwise the history becomes the cut history plus the session, the average becomes its exact mean, and the other keys stay as they were |
| Store.SimulateConversations | simulate_conversations.py:10-43 | one run: a missing or bad file ends with a one-entry history averaged at the session's rating; a parsed file with a history ends with the cut-and-appended history and its other keys kept; whenever the run succeeds the stored average is the exact mean of the new history, and it is in [1, 5] when the entries the cut keeps are rated in 1..5; a parsed file without a history fails and keeps its average and other keys |

## Left out

- File reading and writing are not modelled. This covers the existence test, `open`, `json.load`, `json.dump`, the directory creation and the two-space JSON formatting. The file is passed in as a `StoredFile` value, and the document that would be written is returned.
- A write failure is not modelled. It propagates as an uncaught exception because the code does not handle it.
- Random draws and `datetime.now().isoformat()` are not modelled. They are parameters of `MakeSession`, and `SimulateConversations` takes the session as a parameter that must be valid.
- Store.Document.RecordSession: stores the exact mean of the ratings, not the two-decimal float that `round(..., 2)` produces, because Dafny has no floating point. The History lemmas about MeanSatisfaction state the exact mean as well.
- Loaded history entries are typed as session records. A history that is not a list, entries without a `user_satisfaction`, and ratings that are not integers are not modelled. The source raises an exception on most of these, and it sums float ratings without error. A top-level JSON value that is not an object is not modelled either.
- Other top-level keys are carried as opaque raw-JSON text, and their order on output is not modelled.
- The console summary line is not modelled.
- Concurrent runs racing on the shared file are not modelled.
- streamlit_app.py is not part of this model. It is the web UI and the hosted-model call.
- generate_bot_stats.py is not part of this model. It writes a single record of random values, with no history, over the same file.
