# B&G Logistics log: a Dafny model

This project models the logic of the logistics log app (`logistics_app.py`). The app is a
single form for logging vehicle movements and fuel. On submit it checks the odometer
readings and the required text fields. It then builds one record with a computed trip
distance and upper-cased free text, and appends that record to the table loaded from
the local CSV file. The updated table is written to the local file first and then pushed
to a file in a GitHub repository. Below the form, a ledger shows the 15 latest rows,
newest first, each with a photo flag.

Modules, one per concern of the script:

- `Wrappers` (`wrappers.dfy`): `Option` and `Result`.
- `Text` (`text.dfy`): `str.upper` on ASCII letters, and Python's string order (`AtMost`) with its order laws.
- `Timestamp` (`timestamp.dfy`): the `'%Y-%m-%d %H:%M'` timestamp format. For such strings, text order is date-and-time order.
- `Log` (`log.dfy`): `Record` (the twelve columns), `Table`, `load_data`, the append, and the photo test.
- `Intake` (`intake.dfy`): the submit handler as pure functions (`Validate`, `TripDistance`, `MakeRecord`, `Submit`), plus the log invariant `SoundLog` that the handler preserves.
- `History` (`history.dfy`): the sort by Timestamp, newest first, cut to 15 rows (`Recent`), and the ledger rows with their photo flags (`LedgerOf`).
- `Store` (`store.dfy`): a class holding the local and remote copies of the log file. `HandleSubmit` writes the local copy and then pushes; a failed push does not undo the local write.

Inputs the script gets from outside are parameters. The clock reading is
`Submission.timestamp`. The captured picture, already base64-encoded, is `Submission.photo`.
Whether the remote host accepts the update is `hostAccepts`. The local file is an
`Option<Table>`, where `None` means no file.

The model follows the code in three places where one might expect otherwise:

- This file has one validation policy: the odometer check, then the authoriser and location check. The repository's other app variant, which checks the item details instead, is not part of this model.
- The history is ordered by Timestamp non-increasing, not strictly decreasing: rows with equal timestamps are kept.
- A row is flagged as having a photo when its Photo cell is a string longer than 50 characters, not merely non-empty.

## Model

| member | source | states |
|---|---|---|
| `Text.UpperChar` | logistics_app.py:89-92 | the result is never a lower-case ASCII letter; a lower-case letter becomes the letter 32 code points below; every other character is kept |
| `Text.Upper` | logistics_app.py:89-92 | `s.upper()` has the length of `s`, and each character is that character upper-cased |
| `Text.UpperIsUpperCase` | logistics_app.py:89-92 | upper-cased text has no lower-case letter and keeps its length, so it is blank exactly when the input is blank |
| `Text.UpperFixesUpperCase` | logistics_app.py:89-92 | text with no lower-case letter is left unchanged |
| `Text.UpperIdempotent` | logistics_app.py:89-92 | upper-casing twice gives the same text as upper-casing once |
| `Text.AtMostReflexive` | logistics_app.py:107 | every string is at most itself under the order `sort_values` uses |
| `Text.AtMostTotal` | logistics_app.py:107 | any two Timestamp strings are comparable under the order `sort_values` uses |
| `Text.AtMostTransitive` | logistics_app.py:107 | that order is transitive |
| `Text.AtMostAntisymmetric` | logistics_app.py:107 | two strings that are each at most the other are equal |
| `Timestamp.DigitsOrder` | logistics_app.py:88 | for digit strings of equal width, text order is numeric order, and equal values mean equal strings |
| `Timestamp.TextOrderIsTimeOrder` | logistics_app.py:88 | for timestamps in the `'%Y-%m-%d %H:%M'` format, text order is the order by year, month, day, hour and minute |
| `Log.Load` | logistics_app.py:27-34 | with no file, the loaded table has no rows; otherwise it is the stored table |
| `Log.ColumnsShape` | logistics_app.py:30-34 | the column list of `load_data` has twelve distinct names, one per `Record` field |
| `Log.Append` | logistics_app.py:95 | the new table is one row longer, its first n rows are the old table in order, and its last row is the new record |
| `Log.AppendKeepsPrefix` | logistics_app.py:95 | the old table is a prefix of the new one, and the new multiset of rows is the old one plus the new record |
| `Log.EmptyPhotoIsNotFlagged` | logistics_app.py:123 | an empty photo string and a missing (non-string) cell are never flagged; a string cell is flagged exactly when it is longer than 50 characters |
| `Intake.TripDistance` | logistics_app.py:85 | distance is 0 when no end reading is entered, and end minus start otherwise; it is non-negative exactly when the odometer check passes |
| `Intake.Validate` | logistics_app.py:73-76 | a submission passes exactly when its distance is non-negative and both the authoriser and the location are filled in; each rejection reason matches its failing condition |
| `Intake.OdometerCheckedFirst` | logistics_app.py:73-76 | a backwards odometer is the reason given even when the text fields are also blank |
| `Intake.BlankFieldRejected` | logistics_app.py:73-76 | when the odometer is sound, a blank authoriser or location is rejected with the missing-fields reason |
| `Intake.MakeRecord` | logistics_app.py:87-93 | Timestamp, Vehicle, Driver, Purpose, Start_KM, End_KM, Fuel_Ltrs and Photo are copied; Distance is the trip distance; Authorized_By, Location and Items are upper-case and keep the input lengths |
| `Intake.StoredTextIsUpperCased` | logistics_app.py:89-92 | the stored Authorized_By, Location and Items are the upper-cased inputs, and upper-casing them again changes nothing |
| `Intake.Submit` | logistics_app.py:72-95 | a rejected submission yields its rejection reason and no table; an accepted one yields the loaded table plus the new record, appended last |
| `Intake.AcceptedRecordIsSound` | logistics_app.py:73-93 | the record of an accepted submission has a non-negative distance that agrees with its odometer readings, a filled-in authoriser and location, and upper-case text |
| `Intake.EmptyLogIsSound` | logistics_app.py:30-34 | the table loaded when no file exists satisfies the log invariant |
| `Intake.SubmitPreservesSoundLog` | logistics_app.py:73-95 | an accepted submission keeps the log invariant on every row of the table |
| `Intake.NoEndReadingGivesZero` | logistics_app.py:73-85 | an end reading of 0 is accepted when the text fields are filled in, and it logs distance 0 |
| `Intake.BackwardsOdometerExample` | logistics_app.py:73-74 | start 10 and end 5 is rejected for the odometer |
| `Intake.UpperCaseLocationExample` | logistics_app.py:91 | location "unit 2" is stored as "UNIT 2" |
| `Intake.NoPictureNotFlagged` | logistics_app.py:78-123 | a submission without a picture produces a row that the ledger flags as having no photo |
| `History.Insert` | logistics_app.py:107 | inserting adds exactly the one row to the rows of the table |
| `History.InsertNewestFirst` | logistics_app.py:107 | inserting into a newest-first table keeps it newest first |
| `History.SortNewestFirst` | logistics_app.py:107 | the sorted table is a permutation of the table |
| `History.SortIsNewestFirst` | logistics_app.py:107 | the sorted table has non-increasing timestamps |
| `History.Recent` | logistics_app.py:107 | the view has exactly min(15, n) rows, has non-increasing timestamps, and takes each row from the table no more often than the table holds it |
| `History.RecentAreNewest` | logistics_app.py:107 | the shown rows and the rows left out together make up the table; no row left out is newer than a shown row; with 15 rows or fewer, every row is shown |
| `History.RecentIsLatestFirst` | logistics_app.py:107 | when every row has a timestamp in the handler's format, the view is in date-and-time order, latest first |
| `History.SoundLogHistoryIsLatestFirst` | logistics_app.py:107 | the view of a log built only by the handler is latest first by date and time |
| `History.LedgerOf` | logistics_app.py:105-136 | the "no logs" notice is shown exactly for an empty table; otherwise the grid has min(15, n) lines, newest first; line i shows the Timestamp, Vehicle, Purpose, Location, Distance and Items of the i-th recent row and is flagged "Yes" exactly when its Photo cell is a string longer than 50 characters |
| `History.NoFileShowsNoLogs` | logistics_app.py:28-34 | with no log file, the history section is the "no logs yet" notice |
| `Store.LogStore.Push` | logistics_app.py:38-48 | the push succeeds exactly when the host accepts it and the remote file exists; on success the remote file holds the table; on failure it returns false and leaves the remote file unchanged |
| `Store.LogStore.HandleSubmit` | logistics_app.py:72-101 | from any state, a rejection changes neither file; an accepted submission always writes the updated table locally; the remote file gets the same table only when the push succeeds; if the remote copy was a prefix of the local one, it still is |
| `Store.SyncCatchesUp` | logistics_app.py:95-98 | after a failed push, the next accepted submission whose push succeeds leaves the remote file equal to the local one, holding both new records in order |

## Left out

- The Streamlit form, layout, messages, `st.rerun`, `clear_on_submit` and the page setup (lines 16, 51-72, 99-101): these are UI. The model does not capture that after a failed push the page is not rerun, so the ledger of that run still shows the table loaded before the submission.
- The `cache_data(ttl=1)` on `load_data` (line 26) and `st.cache_data.clear()` (line 99): the model assumes every load reads the current local file. A stale cached read could make an append overwrite a row written within the last second.
- The secrets lookup and the halt when secrets are missing (lines 18-23): this is configuration.
- The GitHub client (`Github`, `get_repo`, `get_contents`, `update_file`, and the commit message with its clock reading; lines 40-44): the push is an abstract outcome, `hostAccepts`. The model keeps only the need for an existing remote file.
- Image capture, JPEG re-encoding and base64 (lines 79-83): the photo is the encoded text, taken as an input. The photo viewer's selection and decoding are not part of this model.
- Log.Load: an existing file that pandas cannot parse (empty or malformed) makes `load_data` raise and stops the script; in the model a file always holds a table.
- Log.ColumnsShape: the header is carried only by `Record`'s field list; the model's empty table is `[]` with no separate header.
- CSV writing and reading by pandas (lines 29, 42, 96): a file holds a `Table` value. pandas reads empty cells back as NaN; `Photo.Missing` stands for that in the Photo column only.
- The clock and time zone (`datetime.now(IST)`, line 88): the timestamp is an input string. The sound-log lemmas assume it is in the `'%Y-%m-%d %H:%M'` format.
- `Fuel_Ltrs` (line 63) is a float; it is carried as a `real` and copied, with no arithmetic on it.
- The choice lists of the select boxes (lines 56-58): Vehicle, Driver and Purpose are free strings in the model. The widgets limit them to fixed options.
- Text validation: a field of only spaces is truthy in Python and is accepted by the code; the model does the same, because only the empty string is rejected.
- The HTML grid strings (lines 109-134): `LedgerOf` gives the grid's lines as data (shown columns and photo flag), not as markup.
- Text.Upper: maps only ASCII a-z. Python's `str.upper` also maps letters of other scripts, and some of them (such as 'ß' to "SS") change the length.
- History.SortNewestFirst: `sort_values` uses an unstable sort by default, so the order among rows with equal timestamps is not fixed by the code. The model keeps table order for ties, and the lemmas about `Recent` state only facts that hold for any tie order.
- Concurrent writers: the `LogStore.Valid` invariant (the remote copy is a prefix of the local one) assumes a single writer. A deployment starts with both copies equal.
