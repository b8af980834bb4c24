# Sensor ingest service: a Dafny model

This project models the heart of a small sensor-data service. Dataloggers,
identified by UUIDs, post readings to it. Each reading is a temperature,
humidity or rain value. The service keeps the readings and answers two kinds
of query:

- raw listings, filtered by device and by an inclusive time range;
- hour and day summaries, where rain is summed and every other label averaged.

The model covers:

- **Validation.** Ingestion validates every field of a payload and reports the
  errors of every bad field.
- **Storage.** The writer registers the datalogger with get-or-create, so a
  known device keeps its first location. It then appends one row per entry,
  all in one atomic transaction.
- **Queries.** The raw listing and the summary view read the store and change
  nothing. The summary loops over the labels present and groups each label's
  rows by time slot.
- **The test suite's reference side.** This is the dictionary-based
  `aggregate` oracle, plus the random payload generator with its random draws
  taken as parameters.

The modules follow the program:

- `Models`: the records, and the `Store` class that stands for the two tables.
- `Uuids`: Python's `str(UUID(s))`.
- `Fields`: raw inputs and per-field errors.
- `Filters`: the filter set of the raw listing.
- `Serializers`: the validators and the `create` transaction.
- `Buckets`: the reference meaning of hour and day aggregation.
- `Views`: the three endpoints.
- `Oracle`: `aggregate` and `generate_random_payload`.

Both iterations of the repository (the top-level `api/` and the older
`weenat_test_api/api/`) declare the same filters, models and oracle. The
table cites whichever copy a member follows.

Representation choices:

- **Values** are exact reals. The step rule "in steps of 0.1" means that
  `v * 10` is a whole number.
- **Times** are whole seconds in one time reference. The hour slot of `t` is
  `t - t % 3600` and the day slot is `t - t % 86400`.
- **The measurement label** is called `kind` in the model, because `label` is
  a reserved word in Dafny.
- **A failed store write** appears as a `fault` parameter naming the write
  that raises: 0 is the get-or-create, and k is the k-th measurement.
- **The current time** is the parameter `now`.

## Model

| member | source | states |
|---|---|---|
| Uuids.ParseUuid | api/serializers.py:111-117 | An id is accepted exactly when, after the `urn:`/`uuid:` markers, the surrounding braces and the hyphens are removed, 32 hex digits remain. An accepted id is the canonical form of those same digits: lower-cased and regrouped 8-4-4-4-12, so removing its hyphens gives back the lower-cased digits. |
| Uuids.SameDigitsSameId | api/serializers.py:113 | Two accepted ids give the same canonical id exactly when their digits agree up to case. |
| Uuids.GroupedIdParses | api/serializers.py:111-117 | An 8-4-4-4-12 hex id, bare or in braces, parses to its lower-cased self. |
| Uuids.FormatIsCanonical | api/serializers.py:113 | Printing 32 lower-case hex digits gives a canonical id, with hyphens at 8, 13, 18 and 23. |
| Uuids.CanonicalRoundTrip | api/serializers.py:113 | Parsing a canonical id returns that id unchanged. |
| Uuids.ParseIdempotent | api/serializers.py:113 | Parsing the result of a successful parse returns it unchanged. |
| Uuids.ParsedHasOnlyIdChars | api/serializers.py:111-117 | Text that parses consists only of hex digits, hyphens, braces and the letters of the `urn:`/`uuid:` markers. |
| Uuids.NulNotAnIdChar | api/serializers.py:111-117 | A text holding a null character never parses as a UUID. |
| Uuids.EmptyIdRejected | api/serializers.py:114-117 | The empty id is rejected. |
| Uuids.ShortIdRejected | api/serializers.py:109-110 | The integer 4, received as the text "4", is rejected rather than coerced. |
| Fields.TrimLeft | api/serializers.py:104 | Stripping a text field leaves a suffix of the input that starts with a non-whitespace character. Every character dropped is whitespace. |
| Fields.TrimRight | api/serializers.py:104 | Stripping leaves a prefix of the input that ends with a non-whitespace character. Every character dropped is whitespace. |
| Fields.Trim | api/serializers.py:104 | Stripping keeps a run of the input that neither starts nor ends with whitespace. Everything before and after that run is whitespace. |
| Models.ParseLabel | api/models.py:36-42 | Exactly "temp", "rain" and "hum" are labels. The label found is the one whose name was given. |
| Models.Register | api/serializers.py:138-144 | Get-or-create adds the id with the defaults when the id is new. A known id keeps its stored location. No other datalogger changes. |
| Models.RegisterFirstWriteWins | api/serializers.py:138-144 | Registering an id a second time changes nothing. The first location stays. |
| Models.RegisterAddsAtMostOne | api/models.py:13-15 | The id is the primary key, so get-or-create adds one datalogger when the id is new and none otherwise. |
| Models.Detached | api/models.py:47 | After a cascade delete, exactly the rows of other dataloggers remain, with their multiplicities. |
| Models.Store.GetOrCreate | api/serializers.py:138-144 | The datalogger table becomes `Register` of the old one. `created` holds exactly when the id was new. The returned location is the stored one. The rows are unchanged. |
| Models.Store.CreateMeasurement | api/serializers.py:148-150 | One row, owned by an existing datalogger, is appended and nothing else changes. The store stays valid. |
| Models.Store.Delete | weenat_test_api/api/models.py:59 | The datalogger is removed and its rows are dropped by the cascade. Every other row is kept, in order. |
| Models.Store.Restore | api/serializers.py:131 | The rollback of the atomic transaction: both tables go back to the snapshot. |
| Buckets.Slot | api/tests/test_utils.py:77-80 | The slot is a multiple of the span, at or before `t`, and less than one span before it. |
| Buckets.SlotUnique | api/views.py:115 | The slot is the only span boundary whose bucket contains `t`. |
| Buckets.DaySlotWithinHourSlot | weenat_test_api/api/tests/test_utils.py:85-88 | day slot ≤ hour slot ≤ t. The day of the hour slot is the day of `t`. Truncating to the hour is idempotent. |
| Buckets.Bucket | api/tests/test_utils.py:73-84 | A key's bucket is never longer than the rows it is drawn from. |
| Buckets.KeyOrder | api/tests/test_utils.py:73-87 | The dictionary's keys, in insertion order, are distinct, and there are no more of them than rows. |
| Buckets.ReducerFor | api/tests/test_utils.py:88-91 | `rain` is summed and any other label is averaged. |
| Buckets.RecordOf | api/tests/test_utils.py:87-94 | A listed key's record carries that key. Its bucket is non-empty, and its value is the bucket's sum for rain and the bucket's mean otherwise. |
| Buckets.OrderedRecords | api/tests/test_utils.py:86-96 | One record per dictionary key, in insertion order, each carrying its key, so the keys are distinct. |
| Buckets.KeyOrderBucket | api/tests/test_utils.py:84-87 | A (label, slot) key appears in the dictionary exactly when its bucket is non-empty. |
| Buckets.RowInItsBucket | api/tests/test_utils.py:84 | Every row's key is listed, and the row's value is in that key's bucket. |
| Buckets.OrderedRecordsAreAggregation | api/tests/test_utils.py:86-94 | The emitted records have distinct keys. There is one per listed key, and together they are the reference aggregation. |
| Buckets.OneRecordPerKey | weenat_test_api/api/tests/test_utils.py:94-104 | Two records of the aggregation with the same key are the same record. |
| Buckets.EachRowInOneRecord | weenat_test_api/api/tests/test_utils.py:79-92 | Each row contributes to exactly one record: the record of its own key, whose bucket holds the row's value. |
| Buckets.NoEmptyBucket | weenat_test_api/api/tests/test_utils.py:95-99 | Every record's bucket is non-empty, so the mean is defined. |
| Buckets.BucketContents | api/tests/test_utils.py:84 | A bucket holds a value exactly when some row with that key carries that value. |
| Buckets.BucketSizesSumToRows | api/tests/test_utils.py:73-84 | The bucket sizes add up to the number of rows, so no row is lost or counted twice. |
| Filters.Apply | api/filters.py:16-18 | The filter set keeps exactly the stored rows that pass every given parameter, with their multiplicities, and never grows the list. |
| Filters.KeepsIsConjunction | api/filters.py:16-18 | A row passes the filter set exactly when it passes each given parameter on its own. Absent parameters keep every row. |
| Filters.Where | api/filters.py:16-18 | Selection keeps exactly the rows satisfying the predicate and never grows the list. |
| Filters.WhereCounts | api/filters.py:16-18 | Each kept row keeps its multiplicity. Every other row is removed entirely. |
| Filters.DateTimeFilterField | api/filters.py:16-17 | A timestamp parameter fails on its own field exactly when it is present, not blank, and does not parse. Otherwise it gives its time, and a blank one counts as absent. |
| Filters.UuidFilterField | api/filters.py:18 | The text is stripped and a blank counts as absent. Otherwise it must parse as a UUID, or the datalogger field reports "Enter a valid UUID." |
| Filters.FilterForm | api/filters.py:6-22 | The filter form fails exactly when one of its three fields fails. On success it carries each field's parsed value, with a blank bound as no bound. |
| Filters.SinceKeepsExactly | weenat_test_api/api/filters.py:7 | `since` keeps exactly the rows with `at >= since`. |
| Filters.BeforeKeepsExactly | weenat_test_api/api/filters.py:8 | `before` keeps exactly the rows with `at <= before`. |
| Filters.DataloggerKeepsExactly | weenat_test_api/api/filters.py:9 | `datalogger` keeps exactly that device's rows. |
| Filters.BoundsKeepIntersection | api/filters.py:16-17 | Both bounds together keep the inclusive intersection. A `before` earlier than `since` keeps nothing. |
| Filters.WhereWhere | api/views.py:101-106 | Chained filters are one filter by the conjunction, order preserved. |
| Filters.NoFilterKeepsAll | api/views.py:103-106 | With no parameter, every row is returned, in order. |
| Filters.SortedRangeCount | api/tests/test_fetch_data_raw.py:45-65 | On rows sorted by time, the bounds taken from the rows at sorted indices a and b keep exactly that run of b - a + 1 rows. |
| Serializers.ValidateLat | api/serializers.py:33-36 | A latitude is accepted exactly within [-90, 90] and is returned unchanged. |
| Serializers.ValidateLng | api/serializers.py:38-41 | A longitude is accepted exactly within [-180, 180] and is returned unchanged. |
| Serializers.ValidateLocation | api/serializers.py:24-41 | A missing location is reported on its own field. Otherwise each missing coordinate gets "This field is required." and each coordinate out of range its range error, both when both fail, and no other field is reported. |
| Serializers.OnStepIsGrid | api/serializers.py:62 | A value is on the 1/n step exactly when it is k/n for an integer k. |
| Serializers.TempAcceptedIffGrid | api/serializers.py:57-65 | A temperature is accepted exactly when it is one of -20.0, -19.9, …, 40.0. |
| Serializers.HumAcceptedIffGrid | api/serializers.py:67-75 | A humidity is accepted exactly when it is one of 20.0, 20.1, …, 100.0. |
| Serializers.RainAcceptedIffGrid | api/serializers.py:77-85 | A rain value is accepted exactly when it is one of 0.0, 0.2, …, 2.0. |
| Serializers.CheckValue | api/serializers.py:53-87 | The object-level check raises nothing exactly when the value obeys its label's range and step. When it raises, the message is one of the six range and step messages. |
| Serializers.RangeCheckedBeforeStep | api/serializers.py:53-85 | A value out of range reports the range message, whether or not it is on the step. |
| Serializers.ValidateEntry | api/serializers.py:44-87 | An entry is accepted exactly when its label is present and a choice, its value is present, and the value obeys that label's rules. A missing label or value gets "This field is required.". The label is reported exactly when it is missing or not a choice. The value is reported exactly when it is missing, or when the label is a choice and the value breaks its rules. |
| Serializers.Collect | api/serializers.py:106 | A list of items passes exactly when every item passes, giving each item's value in order. Otherwise it fails with errors. |
| Serializers.CollectErrors | api/serializers.py:106 | The list's errors are exactly the union of the items' errors. |
| Serializers.ValidateEntries | api/serializers.py:106 | Every item is validated, and every failing item's error is kept. |
| Serializers.EntriesErrorOn | api/serializers.py:106 | An item's own field has an error in the list exactly when that item reports it. |
| Serializers.ErrorFromItsItem | api/serializers.py:106 | An error on item i's field comes from item i. |
| Serializers.ItemErrorKept | api/serializers.py:106 | A failing item's error appears in the list's errors. |
| Serializers.EntriesErrorsOnItems | api/serializers.py:106 | The list reports errors only on fields of its own items. |
| Serializers.ValidateMeasurements | api/serializers.py:119-122 | The list passes exactly when it is present, non-empty and every item passes. Its errors name the list or its items only. |
| Serializers.MeasurementsConform | api/serializers.py:119-122 | The list is accepted exactly when it is present, non-empty and every item conforms. The accepted entries keep the inputs. |
| Serializers.ValidateDatalogger | api/serializers.py:104-117 | The stripped id is accepted exactly when it parses as a UUID. The canonical form is stored. Otherwise one error is reported on the datalogger field. A missing id gets "This field is required.", and a stripped id holding a null character gets the text field's "Null characters are not allowed." before any UUID check. |
| Serializers.DataloggerRevalidation | api/serializers.py:111-117 | Validating an already validated id returns it unchanged. |
| Serializers.ValidateAt | api/serializers.py:124-129 | A timestamp is accepted exactly when it parses and is not after `now`. `now` itself is accepted. |
| Serializers.ValidatePayload | api/serializers.py:90-129 | An accepted payload has a canonical id, a non-empty list of entries and `at <= now`. A rejected payload has at least one error. |
| Serializers.AcceptedIffConforms | api/serializers.py:90-129 | A payload is accepted exactly when every field conforms. The accepted value holds the inputs, with the id in canonical form. |
| Serializers.PayloadErrorsSplit | api/serializers.py:90-129 | All four fields are validated, and an error on a field comes from that field's own validator. |
| Serializers.ErrorsNameBadFields | api/serializers.py:90-129 | The errors name exactly the bad fields. Datalogger, location, lat, lng and at are each reported exactly when they are bad. |
| Serializers.DataloggerErrorReported | api/serializers.py:111-117 | The datalogger field is reported exactly when the id is missing or is not a UUID. |
| Serializers.LocationErrorReported | api/serializers.py:105 | The location, lat and lng errors of the payload are exactly those of the nested location. |
| Serializers.AtErrorReported | api/serializers.py:124-129 | `at` is reported exactly when it is missing, malformed or in the future. |
| Serializers.EmptyListReported | api/serializers.py:119-122 | The list's own error appears exactly when the list is absent or empty. An empty list is never accepted. |
| Serializers.EntryErrorsReported | api/serializers.py:44-87 | Item i's label error appears exactly when its label is missing or not a choice. Its value error appears exactly when the value is missing, or the label is a choice and the value breaks that label's rules. |
| Serializers.EntryErrorReported | api/serializers.py:106 | An error on item i's label or value in the payload is exactly item i's own error there. |
| Serializers.AcceptedRowsConform | api/serializers.py:146-151 | An accepted payload becomes one row per entry. Each row obeys its label's rules, is not in the future, has a canonical owner, and keeps its entry's label and value. |
| Serializers.RowsOf | api/serializers.py:146-151 | One row per entry, in entry order. Each row is owned by the payload's datalogger, stamped with its `at`, and keeps its entry's label and value. |
| Serializers.Create | api/serializers.py:131-160 | The transaction registers the datalogger and appends one row per entry, all sharing `at`. It returns the stored location. When a write raises, both tables are exactly as before. |
| Serializers.SpanChoice | api/serializers.py:201 | Exactly "hour" and "day" are spans. |
| Serializers.OptionalDateTime | api/serializers.py:198-199 | An optional datetime query parameter fails with the framework's format error on its own field exactly when it is present, not blank, and does not parse. Otherwise it gives its time, and a blank one counts as absent. |
| Serializers.RequiredUuid | api/serializers.py:200 | A required UUID is accepted exactly when it is present and parses. |
| Serializers.OptionalSpan | api/serializers.py:201 | An optional span fails exactly when it is present, not blank, and not "hour" or "day". A blank span counts as absent. |
| Serializers.ValidateSummaryParams | api/serializers.py:191-201 | The summary query is accepted exactly when every field passes, and it carries the parsed values. Blank optional parameters count as absent. |
| Serializers.BlankSpanIsAbsent | api/serializers.py:201 | A blank `span` validates exactly as no `span`, so a blank span asks for raw rows. |
| Serializers.BlankBoundsAreAbsent | api/serializers.py:198-199 | A blank `since` or `before` validates exactly as an absent one. |
| Views.Ingest | api/views.py:31-44 | A bad payload gets 400 with exactly the validator's errors and changes nothing. A failed write changes nothing. Otherwise the rows of the payload are appended and returned. Conforming stored values remain conforming. |
| Views.ParsedIdIsTrimmed | api/views.py:60-65 | An id the model field accepts reads the same to the filter set's UUID field. |
| Views.FetchRaw | api/views.py:49-65 | A missing or empty datalogger gets 400. A non-UUID id raises. A malformed bound gets 400, and a blank one is no bound. Otherwise the listing is that device's rows within the inclusive bounds, in store order: each such row appears as often as in the store, and no other row appears. |
| Views.OneDataloggerListsAll | api/tests/test_fetch_data_raw.py:40-43 | With no bounds, a store holding only that device's rows is listed whole, in order, so 50 rows written give 50 listed. |
| Views.BlankBoundIsAbsent | api/filters.py:16-17 | A blank `since` or `before` lists the same as an absent one. |
| Views.UnknownDataloggerListsNothing | api/tests/test_fetch_data_raw.py:84-89 | A valid id nobody wrote under lists nothing, and is not an error. |
| Views.MalformedSinceIsInvalid | weenat_test_api/api/tests/test_fetch_data_raw.py:57-59 | A malformed `since` is a validation error on `since`. |
| Views.Labels | api/views.py:118 | Each label present among the rows is listed once. |
| Views.ByKindBucket | api/views.py:121 | Selecting one label keeps that label's buckets whole and empties the others. |
| Views.ByKindKeys | api/views.py:121-122 | The keys of one label's rows are exactly the keys of that label. |
| Views.ByKindRecord | api/views.py:121-127 | A group computed on one label's rows is the record of its key over all rows. |
| Views.AppendGroups | api/views.py:129-136 | The inner loop appends one item per group row, labelled with the current label. |
| Views.GroupsExtend | api/views.py:120-136 | One pass of the label loop keeps the invariant: the keys emitted so far are exactly those of the labels done so far, each with its record. |
| Views.Bucketize | api/views.py:115-136 | The label loop produces records with distinct keys, one per (label, slot), and exactly the reference aggregation. |
| Views.Summary | api/views.py:75-141 | A bad query gets 400 with its errors, and an unknown datalogger gets 404. With no span or a blank one, the response is the filtered rows. With a span, it is exactly the reference aggregation of the filtered rows, one record per key. |
| Oracle.Aggregate | api/tests/test_utils.py:70-96 | `aggregate` raises exactly when the span is not hour or day and there is at least one row. Otherwise it returns one record per key, in first-appearance order, each the sum for rain and the mean otherwise. |
| Oracle.EmitRecords | api/tests/test_utils.py:86-94 | The second loop emits exactly the ordered records of the dictionary. |
| Oracle.Append | api/tests/test_utils.py:84 | `aggregation[key].append(v)` extends that key's list by `v`, starting from empty, and leaves every other key alone. |
| Oracle.GroupStep | api/tests/test_utils.py:73-84 | After each row, the dictionary is the grouping of the rows read so far. |
| Oracle.RecordOfBucket | weenat_test_api/api/tests/test_utils.py:95-104 | A record's value is the sum of its bucket for rain and the mean otherwise, over a non-empty bucket. |
| Oracle.SumPermutation | api/tests/test_utils.py:89-91 | The sum does not depend on the order of the values. |
| Oracle.BucketPermutation | api/tests/test_utils.py:84 | Two orders of the same rows give every key a bucket with the same values. |
| Oracle.AggregationPermutation | api/tests/test_fetch_data_summary.py:74-96 | The reference aggregation does not depend on row order. |
| Oracle.GeneratedAt | api/tests/test_utils.py:44-50 | The generated `at` lies in the five days before `now`. |
| Oracle.GeneratedEntries | api/tests/test_utils.py:56-58 | There is one entry per sampled label, in sample order, naming that label. |
| Oracle.GeneratePayload | api/tests/test_utils.py:32-67 | The payload carries the drawn test datalogger, its location, an `at` within the window and the drawn entries. |
| Oracle.DataloggerIdsCanonical | api/tests/test_utils.py:21-25 | The three fixed test ids are canonical UUIDs. |
| Oracle.LocationInRange | api/tests/test_utils.py:21-25 | The three fixed locations are within the coordinate ranges. |
| Oracle.StepAccepted | api/tests/test_utils.py:14-18 | Every value the generator can draw for a label passes that label's rules. |
| Oracle.GeneratedIdAccepted | api/tests/test_utils.py:41 | Every test id is accepted as it is. |
| Oracle.GeneratedEntriesAccepted | weenat_test_api/api/tests/test_utils.py:56-65 | Every drawn entry names a label choice, and its value passes that label's rules. |
| Oracle.GeneratedPayloadConforms | api/tests/test_utils.py:32-67 | Every generated payload conforms field by field. |
| Oracle.GeneratedPayloadIsValid | api/tests/test_utils.py:38-39 | Every generated payload is accepted at its generation time or later. |
| Oracle.GeneratedRows | api/tests/test_utils.py:53-58 | A generated payload becomes one row per drawn label, in draw order. The rows are owned by the drawn datalogger and stamped within the five days before generation. |

## Left out

- **HTTP and framework plumbing.** Status codes, response serializers, URL
  routing and the renaming of `at` to `measured_at` are not modelled. Outcomes
  are datatypes: `IngestOutcome`, `Listing` and `SummaryOutcome`.
- **The database.**
  - The ORM is replaced by the in-memory `Store` class, and
    `transaction.atomic` by taking a snapshot and restoring it.
  - A database failure is a `fault` parameter, not an exception.
  - The auto-increment `Measurement.id` is not modelled.
  - The concurrent race in get-or-create is left to the database's
    uniqueness constraint.
- **Row order of queries.** No query of the views has an `order_by`
  (api/views.py:60-65 and 101-110), and `Measurement` declares no
  `Meta.ordering` (api/models.py:30-50). So the database specifies no order,
  neither for a `GROUP BY` or `distinct()` nor for a plain filtered
  listing. The model fixes its own order:
  - `FetchRaw` and the summary without a span list rows in store order;
  - `Labels` takes first appearance;
  - `Bucketize` emits records by label, then by first appearance of the
    slot.

  The summary's records are therefore stated as a set equal to the reference
  aggregation, with distinct keys and the right count.
  `Oracle.AggregationPermutation` shows that the oracle's input order
  (`order_by("at")`) does not change that set.
- **Floating point.**
  - Values, sums and means are exact reals. The step check
    `round((value*10) % 1, 5) != 0` is taken to be exact divisibility.
  - Not modelled: its one-sided tolerance, under which a value just below a
    grid point is rejected.
  - Not modelled: the generator's `round(...)` and the tests' float
    comparisons.
- **Time.**
  - ISO-8601 parsing is abstracted as `TimeInput`: a text is blank, parses
    to seconds, or does not parse.
  - Time zones, `make_naive` and the database time zone of
    `TruncHour`/`TruncDay` are left out. There is one naive time reference.
  - The oracle's `time_slot.isoformat()` text is represented by the slot's
    second count.
  - The tests compare ISO strings textually. The model compares times instead.
- **Python's UUID parser.** The model follows
  `hex.replace('urn:', '').replace('uuid:', '').strip('{}').replace('-', '')`,
  then demands 32 hex digits. Not modelled: `int(hex, 16)`'s own leniency,
  which allows a sign, underscores, surrounding whitespace, a `0x` prefix or
  non-ASCII Unicode decimal digits (such as Arabic-Indic digits) inside the
  32-character remainder.
- **Input coercion.**
  - Text fields strip the characters of Python's `str.isspace`.
  - The datalogger text field then rejects a null character with its own
    message, before `validate_datalogger` runs.
  - Not modelled: the framework's coercion of JSON types (numbers as strings,
    booleans) and JSON `null`.
  - Every payload field, nested ones included, has a typed value or is
    absent. A value of the wrong JSON type is not represented.
- **The raw listing's unhandled exception.** A non-UUID `datalogger` raises
  inside `.filter(datalogger_id=...)`. The model's `Views.Listing.Unhandled`
  marks it, without the resulting error response.
- **Unreachable code.** Lines 93-94 and 112-113 of api/views.py cannot run:
  the query serializer already requires `datalogger` and restricts `span`. The
  model checks the parameters once, through `ValidateSummaryParams`.
- **The raw listing and the summary disagree on an unknown device.** The raw
  listing answers an empty 200 and the summary a 404. Both are kept as
  written.
- **Randomness.** `generate_random_payload`'s choices are the fields of a
  `Draw`: the datalogger, the time offsets, the sampled labels and each
  value's grid index. `IsDraw` states the ranges the random calls can produce.
- **Command-line tools.** `populate_db`, `old_populate_db`, `clear_db`,
  `check_db` and `apply_monkeytype` are not part of this model. They are
  seeding and maintenance scripts over the ORM.
