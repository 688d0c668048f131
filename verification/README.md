# Health-tracker core, modelled in Dafny

This project models the pure logic of a small client-side health tracker:

- **Record store** (`HealthRecords`, from `store/healthRecordsSlice.ts`). It is an ordered, in-memory list of health readings, newest first. The reducers add (prepend), update (replace the first record with the same id, in place) and delete (drop every record with the id). Two more reducers set the loading flag and the error message. Each reducer is a pure function from the old state to the new one.
- **Dashboard** (`Dashboard`, from `pages/Dashboard.tsx`). Four threshold classifiers map readings to `Normal | Warning | Danger`. The four metric cards are derived from the latest record, which is the head of the list. An empty store has a fixed display.
- **Record form** (`RecordForm`, from `components/HealthRecordForm.tsx`). It has the schema of inclusive ranges plus a required date, with field-scoped issues and their messages. It also covers the default values the form opens with, the construction of a record from accepted values, and the id rule: keep the edited record's id when it is non-empty, otherwise use a fresh timestamp id.
- **Records page** (`RecordsPage`, from `pages/Records.tsx`). This is the controller state: form open, record being edited, delete dialog open, pending delete id. Its handlers choose the store action to dispatch. `App` joins page, form and store so that whole interactions can be stated: a submission that fails validation changes nothing, one that passes becomes an add or an update.
- **Charts** (`HealthChart`, from `components/HealthChart.tsx`). A reversed copy of the list (oldest first) is projected onto one metric per point.

Shared helpers: `Wrappers` (`Option`, `Result`) and `Js`, which models the JavaScript `||` on strings and numbers (falsy: `""` and `0`).

Numbers are Dafny `real`s. The clock (`Date.now()` ids, today's date) is passed in as parameters (`freshId`, `today`). So is number formatting (`show`, `bmiText`, `bmiValue`, `bmi`).

`deleteRecord` filters out every record with the id, not only the first (healthRecordsSlice.ts:74-76), and `DeleteRecord` does the same. With distinct ids exactly one record goes (`DeletePresentRemovesOne`).

The schema accepts any number in range; there is no `.int()` at HealthRecordForm.tsx:19-21, so heart rate and blood pressure are `real`s like the other readings.

Two behaviours of the code are stated as lemmas rather than corrected:
- The seeded list carries its oldest date at the head. So the dashboard's "latest" reading is dated 2025-01-01, and the charts plot the seeded dates newest first.
- Editing a record whose id is empty mints a fresh id. The update that follows then finds nothing to replace. The page's own records never have an empty id (the seeds are "1" to "3" and new ids are `Date.now()` strings), so this only concerns records that reach the store from elsewhere.

## Model

| member | source | states |
|---|---|---|
| HealthRecords.InitialState | react-venture-craft-main/src/store/healthRecordsSlice.ts:21-59 | the seeded state holds three records with ids "1", "2", "3" (pairwise distinct), loading is false and error is null |
| HealthRecords.AddRecord | react-venture-craft-main/src/store/healthRecordsSlice.ts:65-67 | adding puts the record at index 0, shifts every old record one place back, and grows the list by exactly one, with no id check |
| HealthRecords.FindIndex | react-venture-craft-main/src/store/healthRecordsSlice.ts:69 | the lookup yields -1 exactly when no record has the id; otherwise it yields an index holding the id with no earlier index holding it |
| HealthRecords.UpdateRecord | react-venture-craft-main/src/store/healthRecordsSlice.ts:68-73 | when the id is present, the first matching index now holds the payload, every other index is unchanged and the length is unchanged; when it is absent the list is identical |
| HealthRecords.DeleteRecord | react-venture-craft-main/src/store/healthRecordsSlice.ts:74-76 | afterwards no record carries the id; a record is kept iff it was present with another id; the length drops by the number of matches; an absent id leaves the list unchanged |
| HealthRecords.Reduce | react-venture-craft-main/src/store/healthRecordsSlice.ts:64-83 | each action changes only its own part of the state: `setLoading` and `setError` leave the records untouched, and record actions leave loading and error untouched |
| HealthRecords.AddDistinctIff | react-venture-craft-main/src/store/healthRecordsSlice.ts:65-67 | after an add, ids are distinct iff they were distinct before and the new id was fresh (both directions) |
| HealthRecords.UpdateKeepsDistinct | react-venture-craft-main/src/store/healthRecordsSlice.ts:68-73 | an update never makes two ids equal |
| HealthRecords.DeleteKeepsDistinct | react-venture-craft-main/src/store/healthRecordsSlice.ts:74-76 | a deletion never makes two ids equal |
| HealthRecords.DeleteKeepsOrder | react-venture-craft-main/src/store/healthRecordsSlice.ts:75 | the kept records appear in their original relative order (a strictly increasing embedding into the input), and every record with another id is kept |
| HealthRecords.DeleteIdempotent | react-venture-craft-main/src/store/healthRecordsSlice.ts:74-76 | deleting an id twice equals deleting it once |
| HealthRecords.DistinctCountAtMostOne | react-venture-craft-main/src/store/healthRecordsSlice.ts:74-76 | in a list with distinct ids, an id occurs at most once |
| HealthRecords.DeletePresentRemovesOne | react-venture-craft-main/src/store/healthRecordsSlice.ts:74-76 | with distinct ids, deleting a present id shortens the list by exactly one |
| HealthRecords.DeleteUndoesAdd | react-venture-craft-main/src/store/healthRecordsSlice.ts:65-76 | deleting the id of a freshly added record restores the previous list |
| HealthRecords.UpdateAfterAdd | react-venture-craft-main/src/store/healthRecordsSlice.ts:65-73 | updating the record just added replaces it at the head; nothing else changes |
| HealthRecords.UpdateIdempotent | react-venture-craft-main/src/store/healthRecordsSlice.ts:68-73 | updating twice with the same payload equals updating once |
| HealthRecords.DeleteAfterUpdate | react-venture-craft-main/src/store/healthRecordsSlice.ts:68-76 | an update touches only records with its id: deleting that id afterwards gives the same list as deleting it directly |
| HealthRecords.DeleteIgnoresSameIdReplacement | react-venture-craft-main/src/store/healthRecordsSlice.ts:71-75 | replacing a record by one with the same id cannot be seen by a deletion of that id |
| HealthRecords.DeleteThenAddScenario | react-venture-craft-main/src/store/healthRecordsSlice.ts:65-76 | starting from [A, B, C], deleting B gives [A, C], and then adding D gives [D, A, C] |
| Dashboard.BmiStatus | react-venture-craft-main/src/pages/Dashboard.tsx:14-19 | the BMI status is normal exactly on [18.5, 25), danger exactly from 30 on, and warning exactly below 18.5 or on [25, 30) |
| Dashboard.HeartRateStatus | react-venture-craft-main/src/pages/Dashboard.tsx:21-24 | the heart-rate status is never danger, and it is normal exactly on [60, 100] |
| Dashboard.BloodPressureStatus | react-venture-craft-main/src/pages/Dashboard.tsx:26-30 | the blood-pressure status is normal exactly when sys <= 130 and dia <= 80, and danger exactly when sys > 140 or dia > 90; warning covers the band between |
| Dashboard.GlucoseStatus | react-venture-craft-main/src/pages/Dashboard.tsx:32-36 | the glucose status is normal exactly on [70, 100], warning exactly on (100, 140], and danger exactly outside [70, 140] |
| Dashboard.BloodPressureMonotone | react-venture-craft-main/src/pages/Dashboard.tsx:26-30 | raising either blood-pressure reading never lowers the severity |
| Dashboard.ThresholdExamples | react-venture-craft-main/src/pages/Dashboard.tsx:14-36 | sample readings on either side of each threshold: BMI 24.9 normal, 18.4 warning, 30 danger; BP 141/70 danger, 131/70 warning, 120/80 normal |
| Dashboard.LatestRecord | react-venture-craft-main/src/pages/Dashboard.tsx:9 | the latest record is absent exactly for an empty list; otherwise it is the head |
| Dashboard.DashboardView | react-venture-craft-main/src/pages/Dashboard.tsx:9-77 | an empty store shows "0", "0/0" and "0" with normal status and BMI "0.0" with warning; otherwise each card classifies the head record |
| Dashboard.ViewDependsOnHeadOnly | react-venture-craft-main/src/pages/Dashboard.tsx:9 | two lists with the same head show the same dashboard, whatever the dates further down |
| Dashboard.ViewShowsLastAdded | react-venture-craft-main/src/pages/Dashboard.tsx:9-12 | after an add, the dashboard shows the added record |
| Dashboard.SeededLatestIsNotNewestDate | react-venture-craft-main/src/pages/Dashboard.tsx:9 | for the seeded store, "latest" is the 2025-01-01 record although a 2025-01-10 record exists |
| Dashboard.SeededStatusesNormal | react-venture-craft-main/src/pages/Dashboard.tsx:21-36 | the seeded head record is normal for heart rate, blood pressure and glucose |
| RecordForm.FieldIssues | react-venture-craft-main/src/components/HealthRecordForm.tsx:19-24 | a numeric field reports at most one issue; it reports none iff the value is in its inclusive range, "too small" iff below the minimum and "too large" iff above the maximum |
| RecordForm.DateIssues | react-venture-craft-main/src/components/HealthRecordForm.tsx:18 | the date reports "required" exactly when it is empty |
| RecordForm.Validate | react-venture-craft-main/src/components/HealthRecordForm.tsx:17-26 | validation reports no issue iff the date is non-empty and all six readings are within their inclusive ranges; each field's issue is reported iff that field's own check fails |
| RecordForm.NumericIssueOwnField | react-venture-craft-main/src/components/HealthRecordForm.tsx:19-24 | a numeric issue is reported iff its own field reports it; no numeric field reports a date issue |
| RecordForm.NumericIssuesEmpty | react-venture-craft-main/src/components/HealthRecordForm.tsx:19-24 | the numeric fields report nothing iff all six are in range |
| RecordForm.DefaultValues | react-venture-craft-main/src/components/HealthRecordForm.tsx:39-48 | a new record opens with exactly today's date, readings 72, 120, 80, 95, 70 and 175, and notes ""; each field of an edited record is kept when truthy (non-empty date, non-zero reading) and otherwise replaced by today or by that field's fixed reading, which passes the range check; notes are the record's notes or "" when undefined; an in-range record opens with its own values |
| RecordForm.Message | react-venture-craft-main/src/components/HealthRecordForm.tsx:18-24 | the message is "Date is required" exactly for the date issue; a too-small reading gets "Must be at least " followed by the decimal digits of that field's minimum, a too-large one "Must be at most " followed by those of its maximum |
| RecordForm.FieldMessagesDiffer | react-venture-craft-main/src/components/HealthRecordForm.tsx:18-24 | a field's too-small and too-large messages differ from each other and from the date message |
| RecordForm.BuildRecord | react-venture-craft-main/src/components/HealthRecordForm.tsx:51-62 | the built record carries the values unchanged; it keeps the edited record's id when non-empty, and an empty or absent id gives the fresh id |
| RecordForm.Submit | react-venture-craft-main/src/components/HealthRecordForm.tsx:51-68 | a record is produced iff validation passes, and then it is itself in range; otherwise the non-empty issue list is returned |
| RecordForm.HeartRateBoundsInclusive | react-venture-craft-main/src/components/HealthRecordForm.tsx:19 | heart rate 40 and 200 pass; 39 fails with exactly "too small" and 201 with exactly "too large" |
| RecordForm.NotesNeverFailValidation | react-venture-craft-main/src/components/HealthRecordForm.tsx:25 | the notes value, present or not, never changes the validation outcome |
| RecordForm.EditUnchangedRoundTrip | react-venture-craft-main/src/components/HealthRecordForm.tsx:39-62 | saving an in-range record with a non-empty id unchanged gives it back, except that undefined notes become "" |
| RecordForm.SeededRecordsAcceptable | react-venture-craft-main/src/store/healthRecordsSlice.ts:21-59 | every seeded record passes the form's schema |
| RecordsPage.HandleAdd | react-venture-craft-main/src/pages/Records.tsx:42-45 | the form opens with nothing being edited; the delete dialog state is untouched |
| RecordsPage.HandleEdit | react-venture-craft-main/src/pages/Records.tsx:47-50 | the form opens on the given record; the delete dialog state is untouched |
| RecordsPage.HandleDelete | react-venture-craft-main/src/pages/Records.tsx:52-55 | the id is pending and the confirm dialog is open; the form state is untouched |
| RecordsPage.ConfirmDelete | react-venture-craft-main/src/pages/Records.tsx:57-62 | confirming dispatches the deletion of the pending id, closes the dialog and resets the pending id to "" |
| RecordsPage.HandleSubmit | react-venture-craft-main/src/pages/Records.tsx:64-74 | a submission dispatches an update in edit mode and an add otherwise; both paths close the form and end editing |
| RecordsPage.CancelForm | react-venture-craft-main/src/pages/Records.tsx:153-156 | cancel closes the form and ends editing |
| RecordsPage.FormOpenChange | react-venture-craft-main/src/pages/Records.tsx:143 | the form dialog's open-change sets only the open flag; editing is kept |
| RecordsPage.DeleteDialogOpenChange | react-venture-craft-main/src/pages/Records.tsx:161 | the delete dialog's open-change sets only the open flag; the pending id is kept |
| RecordsPage.Apply | react-venture-craft-main/src/pages/Records.tsx:42-74 | only a confirmed delete or a valid submission changes the store; a confirmed delete applies the deletion of the pending id; an invalid submission changes nothing |
| RecordsPage.SubmitEditReplacesInPlace | react-venture-craft-main/src/pages/Records.tsx:64-70 | saving an edit of a stored record with a non-empty id keeps the length, writes the new values at the record's position with its id, and leaves every other index unchanged |
| RecordsPage.SubmitNewPrepends | react-venture-craft-main/src/pages/Records.tsx:64-70 | saving a new record prepends it with the fresh id and grows the list by one |
| RecordsPage.EditOfEmptyIdIsLost | react-venture-craft-main/src/pages/Records.tsx:64-66 | editing a record whose id is empty leaves the store unchanged when the minted id is new, yet the form closes |
| RecordsPage.ConfirmDeleteRemovesPending | react-venture-craft-main/src/pages/Records.tsx:57-62 | after a confirmed delete, no record carries the pending id, and the dialog and pending id are reset |
| RecordsPage.DeleteFlowRemovesOne | react-venture-craft-main/src/pages/Records.tsx:52-62 | clicking delete on a present id and then confirming removes exactly one record when ids are distinct |
| RecordsPage.ApplyKeepsIdsDistinct | react-venture-craft-main/src/pages/Records.tsx:57-74 | every interaction keeps ids distinct, provided that a new record's fresh id is not already in use |
| RecordsPage.ApplyKeepsStoreAcceptable | react-venture-craft-main/src/pages/Records.tsx:57-74 | if every stored record passes the schema, that stays true after any interaction |
| RecordsPage.InitialAppWellFormed | react-venture-craft-main/src/pages/Records.tsx:37-40 | the page starts with both dialogs closed, nothing edited and no deletion pending, over the seeded store, which passes the schema and has distinct ids |
| HealthChart.Reversed | react-venture-craft-main/src/components/HealthChart.tsx:14-15 | the reversed copy has the same length, and position i holds element n-1-i |
| HealthChart.Project | react-venture-craft-main/src/components/HealthChart.tsx:17-31 | a point keeps the record's date, and it is a two-reading point exactly for the blood-pressure metric |
| HealthChart.ChartData | react-venture-craft-main/src/components/HealthChart.tsx:14-32 | the chart has one point per record; point i is derived from record n-1-i (oldest first) and carries its date |
| HealthChart.MetricFields | react-venture-craft-main/src/components/HealthChart.tsx:19-30 | heart rate and glucose points carry their field as the value; blood-pressure points carry systolic and diastolic; BMI points carry the BMI of the record |
| HealthChart.ReversedInvolution | react-venture-craft-main/src/components/HealthChart.tsx:14-15 | reversing twice gives the list back |
| HealthChart.AddedRecordPlotsLast | react-venture-craft-main/src/components/HealthChart.tsx:14-32 | after an add, the chart is the old chart followed by the new record's point |
| HealthChart.SeededChartDates | react-venture-craft-main/src/components/HealthChart.tsx:14-17 | the seeded store plots 2025-01-10, 2025-01-05 and 2025-01-01 in that order |

## Left out

- RecordsPage.Apply: accepts a submission while the form is closed and a confirmation while the delete dialog is closed. The page never renders those controls then, so `Apply` allows more event sequences than can occur.
- BMI arithmetic and formatting are not modelled (react-venture-craft-main/src/pages/Dashboard.tsx:10-12, Records.tsx:76-78, HealthChart.tsx:17,30). They rely on IEEE-754 doubles, `toFixed(1)` and `parseFloat`. The dashboard takes the BMI text and its parsed value as parameters, and the chart takes the point's BMI as a parameter. `BmiStatus` is stated over exact reals.
- `Number.prototype.toString` for card texts is the parameter `show`.
- Clock-derived values are parameters: `Date.now()` ids become `freshId` and today's date becomes `today`. Id freshness is therefore a hypothesis of the lemmas that need it.
- The `z.coerce.number` string-to-number coercion and NaN are not modelled, because numbers are reals. Validation is stated over already-numeric values. The react-hook-form plumbing is library code and is not modelled either.
- Redux wiring is left out: Immer drafts, `createSlice`, `store.ts` and the theme slice. The reducers are pure old-state to new-state functions.
- The chart reverses a copy, so the store's list is never reordered. With Dafny's immutable sequences this holds by construction, and it needs no lemma.
- Rendering is left out: JSX, recharts, dialogs, toasts, the record table, `Layout.tsx` and `MetricCard.tsx`. These are presentation only.
- Records.tsx:76-78 (`calculateBMI`) is omitted because it is display formatting of the BMI.
