# Rubric manager: roster upload, marks API and create-class wizard

This project models three parts of a course rubric manager in Dafny and
proves properties of each.

- **Roster upload** (`POST /api/students`, module `Roster`, with the string
  operations in `Text`):
  - A parsed CSV's headers are normalised: lower-cased, with white space
    removed.
  - Each required field (name, sapId, rollNo) is matched against its
    candidate spellings in priority order.
  - Every record becomes a student record, and an incomplete record aborts
    the upload.
  - Students are found or created by SAP id, with per-record errors
    collected.
  - The collected ids are set-unioned into the class roster.
- **Marks API** (`/api/marks`, module `MarksApi`):
  - POST drops every `null` mark from the nested experiment → indicator map
    and from the experiment totals, then upserts the result.
  - The collection is unique on (classId, studentId).
  - GET returns one pair's record or all records of a class.
- **Create-class wizard** (`CreateClass` component, module `Wizard`):
  - A step counter from 1 to 3 with Next and Previous.
  - The step titles.
  - A duplicate-free selection of at most five indicators, changed by
    toggling.
  - The check made before the class data is sent.

The three imperative parts are modelled as methods with loops, proved
against specification functions:
- the header `forEach`;
- the required-field loop;
- the find-or-create loop;
- the two null-filter loops;
- the component's state updates.

The databases are in-memory values:
- the student collection is a `seq` (a student's id is its position);
- the roster upload's classes are a `map` from id to class record, and the
  marks API takes the set of existing class ids;
- the marks collection is a `seq` whose unique-pair index is an invariant of
  `MarksStore`.

The clock (`now`), the parsed CSV and the form's field values are
parameters.

## Model

| member | source | states |
|---|---|---|
| Text.NormalizeIsKey | app/api/students/route.ts:76 | a normalised header has no white space and no upper-case letter, and normalising it again changes nothing |
| Text.Normalize | app/api/students/route.ts:76 | the header key, `toLowerCase` followed by removing every white-space run; it has no contract of its own, and `Text.NormalizeIsKey` states that the result is a key and that normalising is idempotent |
| Text.TrimEmptyIffBlank | app/api/students/route.ts:46-48 | `!fileContent.trim()` holds exactly when the content is empty or only JavaScript white space |
| Roster.NormalizedHeadersKeys | app/api/students/route.ts:74-77 | the table's keys are exactly the normalised headers, and each maps to a CSV header that normalises to that key |
| Roster.NormalizedHeadersLastWins | app/api/students/route.ts:74-77 | when several headers normalise to one key, the last of them is the one kept |
| Roster.NormalizeHeaders | app/api/students/route.ts:74-77 | the `forEach` loop builds exactly the table `NormalizedHeaders` describes |
| Roster.FirstMatchSpec | app/api/students/route.ts:102-106 | `matches.find` returns the first candidate, in list order, whose normalised form is a key; no earlier candidate is a key |
| Roster.MatchedHeaderPriority | app/api/students/route.ts:102-111 | a field is unmatched exactly when none of its spellings is a key; otherwise the header chosen is the one behind the first spelling that is |
| Roster.MatchedHeaderIsCsvHeader | app/api/students/route.ts:108-111 | the header a field is mapped to is always one of the CSV's own headers |
| Roster.CollectFailure | app/api/students/route.ts:101-118 | the field loop fails exactly when some field is unmatched, and then with the first such field; later fields are not looked at |
| Roster.CollectSuccess | app/api/students/route.ts:101-118 | when the field loop succeeds, every field is mapped to its matched header and earlier entries stay as they were |
| Roster.FieldMappingsKeys | app/api/students/route.ts:80-118 | when the mapping succeeds, name, sapId and rollNo are all mapped |
| Roster.FieldMappingsValues | app/api/students/route.ts:101-111 | when the mapping succeeds, each field is mapped to the header matched for it |
| Roster.FieldMappingsFirstMissing | app/api/students/route.ts:80-118 | fields are checked in the order name, sapId, rollNo, and the error names the first one left unmatched |
| Roster.MatchRequiredFields | app/api/students/route.ts:101-118 | the `for` loop with its early return computes exactly `FieldMappingsOf` |
| Roster.BatchCell | app/api/students/route.ts:126 | the batch cell is non-empty only when it is read from the column whose key is "batch"; without that column it is "" |
| Roster.BatchReadFromUndefinedColumn | app/api/students/route.ts:126 | the as-written lookup takes a column literally named "undefined" as the batch when there is no batch column |
| Roster.BatchAsWrittenAgrees | app/api/students/route.ts:126 | the as-written and the corrected batch lookups agree unless there is no batch column but there is a column named "undefined" |
| Roster.MapRow | app/api/students/route.ts:121-127 | one record's student data before validation; it has no contract of its own, and its fields are stated by `Roster.MapRowFields` |
| Roster.MapRowFields | app/api/students/route.ts:121-127 | name, sapId and rollNo come from the mapped columns, with an absent cell reading as ""; the batch is the batch cell when non-empty, otherwise the class's batch |
| Roster.MapRows | app/api/students/route.ts:121-135 | the mapping succeeds exactly when every record is complete, and then maps each record in order; otherwise it fails with the first incomplete record |
| Roster.IndexOfSap | app/api/students/route.ts:145 | the lookup returns a student with that SAP id, or nothing exactly when no student has it |
| Roster.Admit | app/api/students/route.ts:143-153 | a known SAP id reuses that student; an unknown one adds the record under a new id when it passes the schema's required check, and otherwise gives an error without storing anything; SAP ids stay unique |
| Roster.IngestFromSpec | app/api/students/route.ts:142-162 | each record contributes exactly one id or one error; stored students are kept; ids denote stored students; uniqueness is preserved; errors carry unstorable records |
| Roster.IngestedAccounting | app/api/students/route.ts:137-175 | for an upload, the ids plus the errors number exactly the records, so `insertedCount` plus the number of errors is `totalRows` |
| Roster.IngestKnownReuses | app/api/students/route.ts:143-153 | records whose SAP ids are all known create no student and no error, and each gets the existing student's id |
| Roster.StudentStore.FindOne | app/api/students/route.ts:145 | returns the index of a stored student with that SAP id, or none exactly when there is none |
| Roster.StudentStore.Create | app/api/students/route.ts:149 | succeeds exactly when the record passes the schema's required check, appending it under the next id; otherwise it stores nothing |
| Roster.Ingest | app/api/students/route.ts:137-162 | the find-or-create loop leaves the collection, ids and errors `Ingested` describes, and keeps SAP ids unique |
| Roster.AddAllToSet | app/api/students/route.ts:165-169 | `$addToSet` with `$each` keeps the roster as a prefix, holds exactly the old and the new ids, and adds no duplicate |
| Roster.AddKnownIsIdentity | app/api/students/route.ts:165-169 | adding ids that are already on the roster leaves it unchanged |
| Roster.AddAllToSetIdempotent | app/api/students/route.ts:165-169 | adding the same ids twice gives the same roster as adding them once |
| Roster.AddNothingIsIdentity | app/api/students/route.ts:165-169 | skipping the update when no id was collected is the same as the union with no ids |
| Roster.ClassStore.AddStudents | app/api/students/route.ts:166-168 | only the class's roster changes, and it becomes the union with the ids |
| Roster.FromCsv | app/api/students/route.ts:70-135 | a parsed CSV with records is refused with 400 (a missing field) or 500 (an incomplete record), or gives one complete student per record |
| Roster.Prepare | app/api/students/route.ts:29-135 | every refusal is a 400, 404 or 500; the records reach the database only for a non-blank file, a non-empty class id of an existing class and a parsed CSV with records, one complete student per record |
| Roster.MissingInputRejected | app/api/students/route.ts:29-34 | a request without a file or without a class id is refused with 400 "Missing file or classId" |
| Roster.UnknownClassRejected | app/api/students/route.ts:37-40 | a class id naming no class is refused with 404 "Class not found" |
| Roster.PastEarlyChecks | app/api/students/route.ts:29-67 | a non-blank file for an existing class whose CSV has records gets past every early check |
| Roster.BlankFileRejected | app/api/students/route.ts:46-48 | a file that is empty or only white space is refused with 400 "CSV file is empty" |
| Roster.NoRecordsRejected | app/api/students/route.ts:62-67 | a parsed CSV with no record is refused with 400 "No student records found in CSV" |
| Roster.MissingFieldRejected | app/api/students/route.ts:101-118 | a CSV missing every spelling of a field is refused with 400, naming the first such field in the order name, sapId, rollNo |
| Roster.IncompleteRowAborts | app/api/students/route.ts:121-135 | one incomplete record makes the whole upload fail with 500, carrying an incomplete record, before any student is looked up |
| Roster.ReadStudents | app/api/students/route.ts:70-135 | normalising the headers, mapping the fields and mapping the records give exactly the `FromCsv` outcome |
| Roster.Upload | app/api/students/route.ts:24-176 | an early refusal leaves both collections unchanged; otherwise the students are ingested, the roster is unioned with the ids, and the response is 200 with `insertedCount + errors == totalRows` |
| Roster.IngestAndLink | app/api/students/route.ts:137-176 | ingests every record, unions the ids into the class roster, and reports the counts of ids and records with the errors |
| MarksApi.DropNullsSpec | app/api/marks/route.ts:87-91 | the filtered map holds exactly the non-null entries, with unchanged values |
| MarksApi.NormalizedSpec | app/api/marks/route.ts:73-99 | the transform succeeds exactly when experiments, totals and every indicator object are present; it keeps every experiment key (an all-null experiment becomes `{}`), keeps exactly the non-null marks and totals unchanged, and copies `totalMarks` as is, `null` included |
| MarksApi.NormalizeLift | app/api/marks/route.ts:85-99 | a record without nulls, sent back, passes through the transform unchanged |
| MarksApi.NormalizedIdempotent | app/api/marks/route.ts:85-99 | the transform applied to its own output gives that output again |
| MarksApi.FilterNulls | app/api/marks/route.ts:87-91 | the inner `for` loop builds exactly the non-null entries of the indicator object |
| MarksApi.TransformMarks | app/api/marks/route.ts:85-99 | the two transform loops compute exactly `Normalized`, failing where `Object.entries` would throw |
| MarksApi.FindPair | app/api/marks/route.ts:168 | returns the first record of the (classId, studentId) pair, or none exactly when there is no such record |
| MarksApi.FindPairIs | app/api/marks/route.ts:168 | the first record of the pair is the one found |
| MarksApi.UpsertSpec | app/api/marks/route.ts:49 | the upsert keeps the pair index unique, adds a record only for a new pair, leaves every other record alone, and stores the new marks in the pair's record |
| MarksApi.UpsertTwice | app/api/marks/route.ts:102-115 | a second POST for the same pair adds no record; the result equals the second upsert alone |
| MarksApi.MarksStore.Upsert | app/api/marks/route.ts:102-115 | replaces the collection with `Upserted`, keeps the unique index, and returns the stored record |
| MarksApi.Post | app/api/marks/route.ts:57-120 | missing classId, studentId or marks gives 400, an unknown class 404, and a throwing transform 500, each with the store unchanged; otherwise the marks are upserted and returned with 200 |
| MarksApi.Select | app/api/marks/route.ts:180 | `find({ classId })` gives exactly the stored records of that class |
| MarksApi.SelectAppend | app/api/marks/route.ts:180 | selecting keeps the collection order: a split collection selects part by part |
| MarksApi.Get | app/api/marks/route.ts:150-182 | the answer is 200, 400 or 404; a 200 needs a non-empty, existing class id; every non-200 carries an error message |
| MarksApi.GetSpec | app/api/marks/route.ts:150-182 | no classId gives 400 and an unknown class 404; with a studentId the answer is 200 with that pair's record exactly when one exists, and otherwise 404 "No marks found for this student"; without one it is all the class's records |
| MarksApi.PostThenGet | app/api/marks/route.ts:102-115 | after a POST for a pair, a GET for the pair returns the record the POST stored |
| Wizard.NextStep | components/CreateClass.tsx:181-185 | Next moves forward by at most one, and moves exactly when the step is before the last |
| Wizard.PrevStep | components/CreateClass.tsx:187-191 | Previous moves back by at most one, and moves exactly when the step is after the first |
| Wizard.StepMoves | components/CreateClass.tsx:181-191 | the step stays in 1..3; Next moves exactly when step < 3 and Previous exactly when step > 1; each undoes the other |
| Wizard.StepTitle | components/CreateClass.tsx:193-204 | a step has a non-empty title exactly when it is 1, 2 or 3 |
| Wizard.StepTitlesDistinct | components/CreateClass.tsx:193-204 | the three steps have different titles |
| Wizard.Without | components/CreateClass.tsx:207-211 | the filter keeps every other value and drops the toggled one, and is shorter when that value was present |
| Wizard.WithoutAbsent | components/CreateClass.tsx:210 | filtering out a value that is absent changes nothing |
| Wizard.WithoutAppend | components/CreateClass.tsx:210 | filtering distributes over concatenation |
| Wizard.WithoutKeepsNoDuplicates | components/CreateClass.tsx:210 | filtering keeps a selection duplicate-free |
| Wizard.WithoutAt | components/CreateClass.tsx:207-211 | removing a selected value takes out exactly its entry and keeps the rest in order |
| Wizard.Toggled | components/CreateClass.tsx:206-216 | after a toggle the value is selected exactly when it was not and there was room; no other value changes membership; it only grows by one, and then to at most 5 |
| Wizard.Click | components/CreateClass.tsx:480-490 | a click leaves the selection unchanged exactly when the row is disabled |
| Wizard.ToggleSpec | components/CreateClass.tsx:206-216 | toggling appends an absent value while fewer than 5 are selected, removes a present one keeping the order of the rest, and leaves a full selection alone |
| Wizard.ToggleNoOpIffDisabled | components/CreateClass.tsx:206-216 | a toggle changes nothing exactly when the row is disabled, so the click guard equals a plain toggle |
| Wizard.ToggleTwice | components/CreateClass.tsx:206-216 | toggling an absent value twice, when there is room, restores the selection |
| Wizard.ToggleKeepsValid | components/CreateClass.tsx:206-216 | a toggle keeps the selection duplicate-free with at most 5 values |
| Wizard.ToggleAllKeepsValid | components/CreateClass.tsx:37-39 | any run of toggles from a valid selection, the empty initial one included, stays valid and holds only toggled or earlier values |
| Wizard.IndicatorIdsDistinct | components/CreateClass.tsx:480 | different indicators of the catalogue have different ids |
| Wizard.Submit | components/CreateClass.tsx:56-69 | sends exactly when the form is submittable, and then sends the form's data unchanged; otherwise it gives the alert |
| Wizard.SubmitFromClicks | components/CreateClass.tsx:56-69 | after any clicks on catalogue rows, submission sends exactly when all eight fields are filled and 5 indicators are selected, and then sends five distinct catalogue ids; otherwise it alerts |
| Wizard.CreateClassForm.constructor | components/CreateClass.tsx:35-39 | the form starts on step 1 with nothing selected |
| Wizard.CreateClassForm.HandleNext | components/CreateClass.tsx:181-185 | advances the step unless on the last one, and changes nothing else |
| Wizard.CreateClassForm.HandlePrev | components/CreateClass.tsx:187-191 | moves back unless on the first step, and changes nothing else |
| Wizard.CreateClassForm.ToggleIndicator | components/CreateClass.tsx:206-216 | the selection becomes the toggled one and stays valid; the step is untouched |
| Wizard.CreateClassForm.ClickIndicator | components/CreateClass.tsx:480-490 | a click on a catalogue row applies the `isDisabled` guard, then toggles that row's id |
| Wizard.CreateClassForm.HandleSubmit | components/CreateClass.tsx:40-69 | gives the alert unless every field is filled and 5 indicators are selected; what it sends is the fields with five distinct indicators |

## Left out

- Authentication: the bearer-token and `jwt.verify` check of the students route (app/api/students/route.ts:13-22) calls into a crypto library.
- CSV parsing: csvtojson (app/api/students/route.ts:53) is a foreign library.
  - The model starts from its result: the first record's header order and the records as header → text maps.
  - An unparseable file is the `None` case.
- Reading the request: form data, file buffers and `req.json()` are inputs.
  - An absent or empty `file`, `classId` or `studentId` is modelled as "" or `None` in the request value.
- Database failures other than the ones modelled are not covered: connection errors, invalid ObjectId casts, and number casting of marks.
  - The `ValidationError` branch (app/api/marks/route.ts:125-130) is not reachable in the model.
  - Every failure of a transform loop is a 500 with its message left abstract.
- `Text.LowerChar`: `toLowerCase` is modelled for ASCII letters only. White space is the exact ECMAScript set used by `\s` and `trim`.
- Header order: `Object.keys` puts integer-like keys first. The model takes the order as given and treats every key alike.
- Roster.Admit: a failed `Student.create` is modelled as the schema's required check failing, which can only be an empty batch here.
  - The error text is abbreviated to "Student validation failed".
  - Duplicate-key races between concurrent uploads are not modelled.
- Roster.Upload: `errors` is an empty sequence where the response omits the field (`undefined`).
  - The 500 body carries the incomplete record instead of the JSON text of its message.
- MarksApi: marks are reals that are only copied. The `updatedAt` time is the `now` parameter.
  - A record's `_id` and Mongoose's document form of the response are not modelled.
- The rest of the create-class dialog is not part of this model:
  - the DOM reads that collect the fields (components/CreateClass.tsx:44-51);
  - `fetch` and `alert`;
  - the CSV file picker and upload (`handleFileChange`, `handleUploadCSV`);
  - all JSX rendering.
- The hierarchical mark-redistribution and grid-navigation engine is not part of this model: it lives in app/(routes)/class/[id]/page.tsx.
- Pages, the PDF route, the classes routes, the auth routes and `utils/db.ts` are outside the modelled parts.
- Asynchrony: every `await` is modelled as an immediate step. Concurrent requests are not modelled.

## Findings

| source | as written | input that shows it | evidently intended | confidence | as-written member | corrected member |
|---|---|---|---|---|---|---|
| app/api/students/route.ts:126 | `item[normalizedHeaders["batch"]]` indexes the record with `undefined` when no header normalises to "batch", which reads the record's property named "undefined" | headers `Name`, `SAP ID`, `Roll No`, `undefined`, and a record whose `undefined` cell is `B2`: the student's batch becomes `B2` instead of the class's batch | without a batch column, every student gets the class's batch | not executed | Roster.BatchReadFromUndefinedColumn | Roster.BatchCell |

The rest of the model (`Roster.MapRow`, `Roster.MapRows`, `Roster.Upload`)
uses the corrected lookup `Roster.BatchCell`. `Roster.BatchCellAsWritten`
keeps the lookup as written, and `Roster.BatchAsWrittenAgrees` shows that the
two differ only in that case.

The count the students route reports as `insertedCount` is the number of ids
collected. That includes students that already existed and were reused, not
only newly created ones. The model follows the code.
