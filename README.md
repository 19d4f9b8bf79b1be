# Training-record client: filter and edit form

This project models the two pieces of logic in the training-record React
client that do more than move data around:

- **The per-field filter of the record table** (`filteredTrainings`). It is a
  pure `trainings.filter(...)` over ten filter cells joined by AND. Four
  free-text cells match by case-insensitive substring; `trainingType`,
  `status` and `projectName` match exactly; the two date cells compare the
  first ten characters of the stored date; `percentCompleted` matches by
  substring of the value's decimal text, with an absent value read as `""`.
- **The edit-form state machine**. The component's state slots (`trainings`,
  `form`, `editId`, `showTable`, `showForm`, `filters`) are fields of the
  class `TrainingApp.App`. Its handlers `handleOpen`, `handleClose`,
  `handleChange`, `handleSubmit`, `handleDelete` and `fetchTrainings` are
  methods that update those fields in the same order as the source. The HTTP
  calls are modelled as entries in a request log (`requests`). Each write is
  applied to an abstract remote collection (`store`): a sequence of records
  with distinct ids, in the order the server lists them.

`front-end/src/App.tsx` and `client/src/App.tsx` hold the same logic, apart
from their URLs and layout. The model covers both. The table below cites
one file for each row. In `client/src/App.tsx` the handlers sit one line
earlier than in `front-end/src/App.tsx`, and the filter fifteen lines earlier.

Modules:

- `JsString` (js_string.dfy): the JavaScript string operations the client
  uses. `trim` uses the full WhiteSpace and LineTerminator set. `toLowerCase`
  covers ASCII letters. `includes` is proved equal to a reference "occurs at
  some position" predicate. `slice(0, n)` appears, and so does
  `String(n)` for a non-negative integer.
- `Training` (training.dfy): the record; the field names an input event or
  a filter cell addresses; `handleChange`'s field update; the two templates
  `handleOpen` builds.
- `TrainingFilter` (filter.dfy): the filter as the source writes it
  (`Matches`, `FilteredTrainings`). It sits beside a field-by-field reference
  meaning (`Visible`, `FieldAccepts`) and a reference notion of an
  order-preserving subsequence (`Select`, `IsSubsequence`).
- `RecordStore` (store.dfy): the collection behind `/api/trainings` as the
  client sees it through GET, POST, PUT and DELETE.
- `TrainingApp` (app.dfy): the class `App`, its invariant `Valid()` and the
  handlers. `Valid()` says the form carries the id being edited, exactly one of
  form and table is shown, and store ids are unique.

Two behaviours of the code worth noting:

- The code chooses PUT or POST by the truthiness of `editId`. So a form whose
  `editId` is the empty string is sent by POST, not PUT (`EmptyIdPosts`). The
  server only assigns ObjectIds, so no stored record has that id.
- `handleClose` only switches the view. It keeps `form` and `editId`; it does
  not discard the template.

## Model

| member | source | states |
|---|---|---|
| JsString.Trim | front-end/src/App.tsx:130 | `trim` leaves nothing exactly when the text is empty or all white space; a non-empty result starts and ends outside the white space |
| JsString.TrimSpan | client/src/App.tsx:124 | the trimmed text is a slice `s[a..b]` of its input, and only white space lies outside that slice |
| JsString.TrimBothEnds | front-end/src/App.tsx:130 | removing leading and then trailing white space gives nothing exactly for blank text, and otherwise text bounded by non-white-space characters |
| JsString.TrimStart | front-end/src/App.tsx:130 | the result is a suffix of the input that does not start with white space; everything removed was white space |
| JsString.TrimEnd | front-end/src/App.tsx:130 | the result is a prefix of the input that does not end with white space; everything removed was white space |
| JsString.ToLower | front-end/src/App.tsx:164-175 | lowercasing keeps the length and lowers each character on its own |
| JsString.ToLowerIdempotent | front-end/src/App.tsx:164-175 | lowercasing an already lowercased text changes nothing |
| JsString.Includes | front-end/src/App.tsx:163-181 | `includes` holds exactly when the needle occurs at some position of the text |
| JsString.ShiftOccurrence | front-end/src/App.tsx:163-181 | a needle missing at position 0 occurs in the text iff it occurs in the text after its first character |
| JsString.IncludesEmpty | front-end/src/App.tsx:180-181 | the empty needle is in every text, and only the empty needle is in the empty text |
| JsString.SliceTo | front-end/src/App.tsx:177-178 | `slice(0, n)` is a prefix of length min(length, n) |
| JsString.SliceToIdempotent | front-end/src/App.tsx:93-94 | slicing a sliced text to the same length changes nothing |
| JsString.DigitChar | front-end/src/App.tsx:181 | a digit below ten is written as the decimal character of that value |
| JsString.DecimalText | front-end/src/App.tsx:181 | `String(n)` is a non-empty run of decimal digits with no leading zero |
| JsString.DecimalTextRoundTrip | front-end/src/App.tsx:181 | reading the decimal text back gives the number |
| JsString.NonDigitNotInDecimal | front-end/src/App.tsx:180-181 | a needle with a non-digit character never occurs in a decimal text |
| Training.PercentText | front-end/src/App.tsx:181 | `String(p ?? "")`: "" for an absent value, the typed text verbatim, and for a number a non-empty run of digits that reads back as that number |
| Training.SetField | front-end/src/App.tsx:123-126 | `{...form, [name]: v}`: field `name` reads `v` afterwards; the id and every other field are unchanged |
| Training.ChangedValue | client/src/App.tsx:124 | the value stored is the input verbatim, except that `projectName` is trimmed: empty for blank input, otherwise bounded by non-white-space characters |
| Training.DatePart | front-end/src/App.tsx:93-94 | `slice(0, 10)`: exactly the first ten characters of a longer text, and a shorter text whole |
| Training.BlankTemplate | front-end/src/App.tsx:98-109 | the create template built from today's ISO text and the project options; its properties are stated by BlankTemplateFacts |
| Training.BlankTemplateFacts | front-end/src/App.tsx:98-109 | the blank template has no id; empty text fields; today's date part twice; "Not Started", an option of the status list; "Udemy", the first training type; percent 0, shown as "0"; the first project option; the trainer name `""`, which is blank |
| Training.EditTemplate | front-end/src/App.tsx:91-95 | the edit template keeps the id and every field except the dates; each date becomes exactly its first ten characters, and a date of ten characters or fewer is kept whole |
| Training.EditTemplateIdempotent | front-end/src/App.tsx:91-95 | opening the edit form on an edit template gives the same template |
| TrainingFilter.WithFilter | front-end/src/App.tsx:434-437 | a filter cell's change handler sets its own field to the typed value and keeps the other nine |
| TrainingFilter.Matches | front-end/src/App.tsx:163-183 | the row test: ten clauses joined by AND, each true for an empty cell; its meaning is stated by MatchesIsConjunction, FieldClause and MatchesIffVisible |
| TrainingFilter.Filter | front-end/src/App.tsx:162 | `Array.filter`: at most as many elements, and an element is kept iff it was there and passes the test |
| TrainingFilter.FilteredTrainings | front-end/src/App.tsx:162-184 | the visible rows are exactly the records that pass the row test, and there are no more of them than records |
| TrainingFilter.FieldClause | front-end/src/App.tsx:163-183 | each field's clause holds iff its cell is empty or the field's reference test accepts the record: lowercase substring for the four text cells, equality for the three enumerations, a ten-character date part, a substring of the decimal percent text |
| TrainingFilter.MatchesIsConjunction | front-end/src/App.tsx:163-183 | the row test is the AND of the ten per-field clauses |
| TrainingFilter.MatchesIffVisible | client/src/App.tsx:148-168 | a record passes the source's row test iff every non-empty filter cell accepts it by the reference meaning of its field |
| TrainingFilter.FilteredIffVisible | front-end/src/App.tsx:162-184 | a record is in the visible rows iff it is one of the records and every non-empty cell accepts it by the reference meaning of its field |
| TrainingFilter.FilterSelectsInOrder | front-end/src/App.tsx:162 | `Array.filter` selects, in their original order, exactly the positions whose element passes |
| TrainingFilter.FilterKeepsMatchingInOrder | front-end/src/App.tsx:162-184 | the visible rows are the records at exactly the positions whose row matches, in their original order |
| TrainingFilter.FilterIsSubsequence | front-end/src/App.tsx:162-184 | the visible rows are an order-preserving subsequence of the records |
| TrainingFilter.EmptyFiltersShowAll | client/src/App.tsx:147-169 | with every cell empty (the initial filter state) the visible rows are the records, element for element and in order |
| TrainingFilter.RefinedMatches | front-end/src/App.tsx:163-183 | a record accepted by a filter that constrains more cells is accepted by the coarser filter |
| TrainingFilter.RefinedFilterNarrows | front-end/src/App.tsx:162-184 | filtering by a refined filter equals filtering the coarser result again; the result is a subsequence of it |
| TrainingFilter.SetEmptyFilterNarrows | front-end/src/App.tsx:162-184 | typing into an empty cell never brings rows into view: the new rows are a subsequence of the old, and no more of them |
| TrainingFilter.SingleFieldFilter | client/src/App.tsx:149-167 | with only cell k set to v, a record is visible iff v is empty or field k's reference test accepts the record |
| TrainingFilter.AbsentPercentHidden | front-end/src/App.tsx:180-181 | a record with no percentCompleted is hidden by every non-empty percent filter |
| TrainingFilter.NonDigitPercentFilterHidesNumbers | front-end/src/App.tsx:180-181 | a percent filter with a non-digit character hides every record whose percent is a number |
| TrainingFilter.LongDateFilterHidesAll | front-end/src/App.tsx:177-178 | a date filter longer than ten characters hides every record |
| TrainingFilter.StartDateFilterAgreesWithEditForm | front-end/src/App.tsx:177 | all else matching, a start-date filter shows a record iff the edit form opened on it shows that date |
| TrainingFilter.TextFiltersIgnoreCase | front-end/src/App.tsx:163-175 | a free-text cell shows the same rows whether the typed value is lowercased or not |
| RecordStore.Lookup | index.js:48-52 | a hit is a stored record with that id; there is no hit exactly when no record has the id |
| RecordStore.Created | index.js:41-46 | a POST appends one record after the old ones: it carries the new id and every field of the body |
| RecordStore.Updated | index.js:48-52 | a PUT keeps the length and every record's id; records with other ids are unchanged; the record with the id takes every field of the body |
| RecordStore.Deleted | index.js:54-57 | a DELETE keeps exactly the records whose id differs, and no more of them |
| RecordStore.CreateKeepsIdsUnique | index.js:41-46 | a POST stored under an id the store does not hold keeps the ids distinct |
| RecordStore.UpdateKeepsIdsUnique | index.js:48-52 | a PUT keeps every record's id, so the ids stay distinct |
| RecordStore.CreateRoundTrip | index.js:41-46 | in the abstract store, after a POST the new id finds a record with every field as submitted; lookups of every other id are unchanged; the old records come first, in order |
| RecordStore.LookupAppend | index.js:36-39 | a lookup in a collection with a record added at the end finds the old records' hits first |
| RecordStore.UpdateLookup | index.js:48-52 | after a PUT, the id finds the body's fields under that id (if the id was stored); every other id's lookup is unchanged; the length is kept |
| RecordStore.UpdatedLookup | index.js:48-52 | a lookup after a PUT: another id is unaffected; the updated id finds the body exactly when it was stored |
| RecordStore.UpdateUnknownId | index.js:48-52 | a PUT to an id the store does not hold changes nothing |
| RecordStore.UpdateIdempotent | index.js:48-52 | submitting the same update twice is the same as once |
| RecordStore.UpdateWithStoredValues | index.js:48-52 | submitting an update with the stored values unchanged leaves the store unchanged |
| RecordStore.DeleteLookup | index.js:54-57 | after a DELETE, the id finds nothing; every other id's lookup is unchanged; the ids stay distinct; one record fewer when the id was stored |
| RecordStore.DeleteUnknownId | index.js:54-57 | a DELETE of an id the store does not hold changes nothing |
| TrainingApp.IsTruthy | front-end/src/App.tsx:134 | JavaScript truthiness of `editId`: false for null and for the empty string |
| TrainingApp.Apply | index.js:36-57 | the effect of one request on the collection: a GET changes nothing, a POST appends one record under the new id, a PUT keeps the length, a DELETE never adds |
| TrainingApp.ApplyKeepsIdsUnique | index.js:36-57 | every request keeps the stored ids distinct, when a POST gets an id not yet stored |
| TrainingApp.WriteRequest | front-end/src/App.tsx:134-138 | the write with the form as body: a PUT to `editId` iff `editId` is truthy, otherwise a POST |
| TrainingApp.SubmitRequests | front-end/src/App.tsx:129-141 | no request iff the trainer name is blank after trimming; otherwise the write and then one GET |
| TrainingApp.BlankTemplateNotSent | front-end/src/App.tsx:98-110 | a blank form submitted unchanged issues no request |
| TrainingApp.CreateSessionPosts | client/src/App.tsx:133-137 | with the null `editId` of `handleOpen()`, a valid form is sent by POST, then refetched |
| TrainingApp.EditSessionPutsToRecord | client/src/App.tsx:88-113 | after `handleOpen(t)` on a record with a non-empty id, a valid form is sent by PUT to the record's id, then refetched |
| TrainingApp.EmptyIdPosts | front-end/src/App.tsx:134 | an empty-string id is falsy, so such a form is sent by POST |
| TrainingApp.App.constructor | front-end/src/App.tsx:50-78 | the initial state: no records, the blank template, a null `editId`, table shown, form hidden, every filter cell empty, no request issued |
| TrainingApp.App.Rows | front-end/src/App.tsx:162-184 | the table's rows are exactly the cached records every non-empty cell accepts, no more of them than records |
| TrainingApp.App.Send | front-end/src/App.tsx:135-137 | an awaited request: logged last and applied to the store; store ids stay distinct |
| TrainingApp.App.FetchTrainings | front-end/src/App.tsx:80-83 | logs one GET and replaces the cached list with the store's records |
| TrainingApp.App.HandleOpen | front-end/src/App.tsx:89-114 | with a record: the edit template, and `editId` set to the record's id; without one: the blank template, and a null `editId`; either way the form is shown and the table hidden |
| TrainingApp.App.HandleClose | front-end/src/App.tsx:116-119 | hides the form and shows the table; nothing else changes |
| TrainingApp.App.HandleChange | client/src/App.tsx:120-126 | only the named field of the form changes, to the value (trimmed for projectName); nothing else changes |
| TrainingApp.App.HandleSubmit | front-end/src/App.tsx:129-141 | alerts iff the trainer name is blank, and then issues no request and changes no state; otherwise writes (PUT iff `editId` is truthy), applies the write, refetches, and ends with the table shown and the form hidden |
| TrainingApp.App.HandleDelete | client/src/App.tsx:142-145 | exactly one DELETE for the id, then one GET; the cached list is the store with that record removed; form, `editId` and view untouched |
| TrainingApp.App.SetFilter | front-end/src/App.tsx:434-437 | a filter cell's change handler: that cell takes the typed value, the others stay |

Three methods at the end of app.dfy run short usage scenarios:

- `BlankTrainerSession`: a whitespace-only trainer name is refused with no
  request.
- `CreateSession`: a create with the employee name, course and trainer name
  filled in is then listed under its new id.
- `DeleteSession`: a delete empties a one-record list.

## Left out

- The JSX and MUI rendering, the sidebar buttons, the alert's text, and the
  `toLocaleDateString` display of dates are not modelled. They are UI.
- `exportToExcel` is four calls into SheetJS with a file write as a foreign
  side effect. It is not modelled.
- The Express and Mongoose server (index.js) appears only as the abstract
  store behind the requests. Parts of it are not modelled:
  - schema validation of required fields, enumerations and the percent range;
  - the conversion of dates to `Date` objects;
  - the dropping of `empId`, which the schema does not declare;
  - the generation of ObjectIds (a POST takes the new id as the parameter
    `freshId`, which must not be in the store yet);
  - `findByIdAndUpdate`'s per-field `$set`.
  Bodies are stored as sent. A PUT replaces every field of the stored record.
- RecordStore.Created accepts every body. The real POST refuses a body whose
  `employeeName`, `course` or `trainerName` is empty, because the schema marks
  them required (index.js:23-24, 28) and `save()` (index.js:44) then rejects.
  `handleSubmit` checks only the trainer name, so in the source such a submit
  creates nothing and never reaches the refetch. `findByIdAndUpdate` runs no
  validators by default, so the PUT path is not affected.
- TrainingFilter.Matches reads `empId` as a string on every record. Records
  fetched from the real server have no `empId`, because the schema does not
  declare it (index.js:22-32). For them `t.empId.toLowerCase()`
  (front-end/src/App.tsx:164-165) throws a TypeError during render as soon as
  the EMP ID cell is non-empty. The model's row test is total and has no such
  error path.
- RecordStore.CreateRoundTrip holds for the verbatim abstract store only. The
  real server drops `empId` and stores both dates as `Date` values
  (index.js:42), so a fetched record comes back without `empId` and with full
  ISO date-times.
- The axios calls are modelled as immediate operations on the store. Their
  promises, failures and unhandled rejections are not modelled. The
  un-awaited `fetchTrainings()` before `handleClose()` is modelled as taking
  effect at once, so a later response cannot overwrite the list.
- `new Date().toISOString()` becomes the parameter `nowIso`. The
  `process.env` project-name list becomes the parameter
  `projectNameOptions`, which must be non-empty.
- JsString.ToLower lowers only the ASCII letters A-Z, where JavaScript's
  `toLowerCase` applies the full Unicode case mapping.
- JsString.DecimalText renders only non-negative integers. On the server
  `percentCompleted` is a `Number` between 0 and 100 (index.js:30), so a
  fraction such as 50.5 can be stored. JavaScript's formatting of fractions,
  negative numbers and exponents is not modelled: a stored percent is a `nat`.
- TrainingFilter.NonDigitPercentFilterHidesNumbers holds for the model's
  whole-number percents only. A stored 50.5 renders as "50.5", so in the
  source the percent filter "." shows it.
- The commented-out single-box OR filter is dead code. It is not modelled.
- The `useEffect` fetch on mount is not modelled as a separate operation.
  `FetchTrainings` is the operation it calls.
