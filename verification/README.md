# Patient management service: a Dafny model of its core

The service keeps patient records in one collection keyed by patient id. It
offers create, read, partial update, delete and a sort query. Every record is
validated when it is created or updated: name length 2 to 100, age 0 to 120,
gender one of `male`, `female` and `other`, and height and weight strictly
positive. Every stored record also carries a BMI and a verdict derived from
its height and weight. Both are recomputed on every create and every update.

The model has six modules:

- `Wrappers` (`wrappers.dfy`): `Option` and `Result`.
- `Patients` (`patients.dfy`): the record's constraints and the `Validate`
  function.
  - BMI is `round(weight / height², 2)`, with ties going to the even
    hundredth. The verdict applies the thresholds 18.5, 25 and 30.
  - The stored form of a record drops the id, which is the map key.
  - A partial update has three states per field: not sent, sent as null, or
    sent with a value. `ApplyUpdate` merges it field by field with a loop, as
    the handler does.
- `Sorting` (`sorting.dfy`): validates the sort field and order. Its sort is
  a stable insertion sort that behaves like Python's `sorted(…, key=…,
  reverse=…)`.
- `Collection` (`collection.dfy`): the collection as a value, and what each
  request does to it.
  - The collection is a `Table`: the ids in insertion order plus a map from
    id to stored record.
  - The insertion order matters because a Python dict keeps it, and the
    stable sort returns records with equal keys in that order.
- `CollectionProperties` (`properties.dfy`): lemmas that relate several
  requests, such as create-then-lookup, the empty update, two updates in a
  row, and create-then-delete.
- `Store` (`store.dfy`): the class `PatientStore`.
  - It holds the collection in the fields `ids` and `data`.
  - Its methods change those fields in place.
  - Each changing method is tied to the matching `Collection` function.

Some behaviours of the code are worth knowing:

- A request body is validated before its handler runs. An invalid create
  body is therefore rejected before the duplicate-id check, and an invalid
  update body before the unknown-id check.
- The update body's fields are `Optional`, so an explicit JSON `null` passes
  the update model's validation. It is still written into the merged record,
  and rebuilding the full record from that then fails inside the handler
  (prajwalmain.py:142). The model reports this as `MergeRejected`, naming the
  null fields, and leaves the collection unchanged. `Patients.MergeOutcome`
  proves that this is the only way re-validation can fail.
- The code puts no length constraint on `id`, so the empty string is an
  accepted id. The model follows the code here.

## Model

| member | source | states |
|---|---|---|
| `Patients.ParseGender` | prajwalmain.py:14 | Exactly the labels "male", "female" and "other" are accepted, and each maps back to its label |
| `Patients.GenderName` | prajwalmain.py:14 | Every gender's label is accepted by the parser and gives that gender back |
| `Patients.Violations` | prajwalmain.py:9-16 | A field is reported exactly when it breaks its constraint |
| `Patients.Validate` | prajwalmain.py:9-16 | A full record is accepted iff it meets all of these: id present, 2 ≤ name length ≤ 100, city present, 0 ≤ age ≤ 120, gender in the enum, height > 0, weight > 0. On success every sent field is kept; on failure the non-empty set of offending fields is returned |
| `Patients.Round2` | prajwalmain.py:21 | The rounded BMI is a whole number of hundredths and lies within 0.005 of the exact ratio; on an exact tie it is the even hundredth |
| `Patients.Bmi` | prajwalmain.py:18-22 | The BMI is a whole number of hundredths within 0.005 of weight divided by height squared |
| `Patients.Round2Monotone` | prajwalmain.py:21 | Rounding preserves order |
| `Patients.Round2Exact` | prajwalmain.py:21 | A value with at most two decimals is unchanged by rounding |
| `Patients.Classify` | prajwalmain.py:26-34 | Underweight iff bmi < 18.5; Normal weight iff 18.5 ≤ bmi < 25; Overweight iff 25 ≤ bmi < 30; Obese iff bmi ≥ 30 |
| `Patients.VerdictLabelInjective` | prajwalmain.py:26-34 | The four stored labels "Underweight", "Normal weight", "Overweight" and "Obese" are distinct |
| `Patients.BoundaryVerdicts` | prajwalmain.py:18-34 | A BMI of exactly 18.5, 25 or 30 gets the heavier category: Normal weight, Overweight and Obese respectively |
| `Patients.VerdictMonotone` | prajwalmain.py:18-34 | A larger weight-to-height-squared ratio never gets a lighter verdict |
| `Patients.Dump` | prajwalmain.py:118 | The stored form is well formed, with bmi and verdict consistent with height and weight; together with its key it gives back every field of the validated record |
| `Patients.Restore` | prajwalmain.py:141 | The rebuilt body carries the key as its id and the stored gender's label; a well-formed stored record rebuilds into a body with no violations |
| `Patients.RestoreRoundTrip` | prajwalmain.py:140-142 | Rebuilding a well-formed stored record with its id validates and gives back the identical stored record |
| `Patients.UpdateViolations` | prajwalmain.py:36-42 | An update body is accepted iff every field sent with a value meets its constraint; fields that are not sent, or sent as null, are not checked |
| `Patients.NullFields` | prajwalmain.py:37-42 | Exactly the fields sent as an explicit null |
| `Patients.Supplied` | prajwalmain.py:136 | The fields the body sends, each once: the keys of `model_dump(exclude_unset=True)` |
| `Patients.ApplyUpdate` | prajwalmain.py:137-138 | The field-by-field loop produces the overlay of the whole update: sent fields overwrite, unsent fields and the id stay |
| `Patients.OverlayCompose` | prajwalmain.py:135-138 | Merging two updates in turn equals merging their combination once |
| `Patients.MergeOutcome` | prajwalmain.py:140-142 | For a well-formed stored record and an accepted body, re-validation fails iff some field is sent as null, naming those fields. Otherwise the stored result has each sent value, each unsent field as before, and bmi and verdict recomputed |
| `Sorting.ParseSortField` | prajwalmain.py:92-95 | Exactly "height", "weight" and "bmi" are accepted, each to its own field |
| `Sorting.ParseOrder` | prajwalmain.py:97-102 | Exactly "asc" and "desc" are accepted, and the order is descending iff it is "desc" |
| `Sorting.Insert` | prajwalmain.py:104 | Insertion adds exactly one copy of the record |
| `Sorting.InsertOrdered` | prajwalmain.py:104 | Insertion into an ordered sequence keeps it ordered |
| `Sorting.SortRecords` | prajwalmain.py:104 | The result is a permutation of the input: non-decreasing by key for asc, non-increasing for desc |
| `Sorting.InsertKeepsTies` | prajwalmain.py:104 | Insertion passes only records with a different key |
| `Sorting.SortIsStable` | prajwalmain.py:104 | For every key value, the records with that key appear in the same order as in the input, also for desc |
| `Sorting.StableSortUnique` | prajwalmain.py:104 | Two orderings that are both ordered and stable permutations of each other are equal, so the model's sort is the result of any stable sort |
| `Collection.Values` | prajwalmain.py:104 | `data.values()`: one record per id, in insertion order |
| `Collection.Without` | prajwalmain.py:159 | Removing an id from the id order keeps exactly the other ids, still without repeats; an absent id changes nothing |
| `Collection.WithoutAt` | prajwalmain.py:159 | Removing the id at position i of a repeat-free id order gives the order with just that position cut out, so the other ids keep their relative order |
| `Collection.Lookup` | prajwalmain.py:73-75 | The stored record iff the id is a key, otherwise not found |
| `Collection.Create` | prajwalmain.py:109-121 | An invalid body is rejected with its fields, and a duplicate id is a conflict; both leave the table unchanged. Otherwise the keys grow by exactly the id, the id goes last in the order, the new entry is the stored form of the record, every other entry keeps its value, and validity is preserved |
| `Collection.Update` | prajwalmain.py:126-148 | Checks run in order: invalid body, then unknown id (not found), then null fields (merge rejected); each leaves the table unchanged. On success the keys and id order are unchanged, the entry is the patched record with bmi and verdict recomputed, and every other entry is untouched |
| `Collection.Delete` | prajwalmain.py:153-160 | An unknown id is not found and leaves the table unchanged. Otherwise exactly that key is removed, all other entries keep their values, and the id order loses only that id |
| `Collection.Sort` | prajwalmain.py:87-106 | The field is checked before the order. The result holds exactly the stored records, ordered by the field in the chosen direction, with ties in insertion order |
| `CollectionProperties.CreateThenLookup` | prajwalmain.py:114-118 | After a successful create, lookup of the id returns a record whose non-derived fields equal the input and whose bmi and verdict come from the input height and weight |
| `CollectionProperties.EmptyUpdateIsNoOp` | prajwalmain.py:129-145 | An update that sends no field succeeds and changes nothing |
| `CollectionProperties.ThenAcceptable` | prajwalmain.py:36-42 | Combining two acceptable update bodies without nulls gives an acceptable body without nulls |
| `CollectionProperties.UpdateStores` | prajwalmain.py:133-145 | An accepted body without nulls, sent for a known id, succeeds. It stores the validated merge of the body with the stored record and changes nothing else |
| `CollectionProperties.UpdatesCompose` | prajwalmain.py:126-148 | Two accepted bodies without nulls, sent one after the other, both succeed. They give the same table as one update sending the later value of each field, so height and then weight give the same bmi as both at once |
| `CollectionProperties.WithoutLast` | prajwalmain.py:159 | Removing the id that was just appended restores the previous id order |
| `CollectionProperties.CreateThenDelete` | prajwalmain.py:153-160 | Deleting a record that was just created gives back the previous table |
| `CollectionProperties.SortByBmiDescending` | prajwalmain.py:102-104 | Records with bmi 18.0, 30.5 and 24.9 sorted by bmi descending come out as 30.5, 24.9, 18.0 |
| `CollectionProperties.SortIsTheStableSort` | prajwalmain.py:102-104 | Any stable sort of the stored records by the requested field and direction equals the sort query's answer |
| `Store.PatientStore.constructor` | prajwalmain.py:44-50 | A service with no saved collection starts from the empty table |
| `Store.PatientStore.ViewAll` | prajwalmain.py:64-67 | Returns the whole collection, every id with its record, in insertion order |
| `Store.PatientStore.GetById` | prajwalmain.py:69-75 | The stored record if the id is a key, otherwise not found |
| `Store.PatientStore.GetByQuery` | prajwalmain.py:77-85 | The same answers as the lookup by path |
| `Store.PatientStore.SortPatients` | prajwalmain.py:87-106 | Returns exactly the sort query's answer on the current collection |
| `Store.PatientStore.Create` | prajwalmain.py:108-123 | The new state and the reply are those of `Collection.Create` on the old state, and validity is kept |
| `Store.PatientStore.Update` | prajwalmain.py:125-150 | The new state and the reply are those of `Collection.Update` on the old state, and validity is kept |
| `Store.PatientStore.Delete` | prajwalmain.py:152-162 | The new state and the reply are those of `Collection.Delete` on the old state, and validity is kept |

## Left out

- Persistence: `load_data` and `save_data` (prajwalmain.py:44-54) read and
  write a JSON file. The model keeps the collection in the object's fields.
  A missing file, which gives an empty collection, becomes the constructor's
  initial state. A failed write is not modelled.
- The HTTP layer is not modelled: routing, status codes, response messages,
  `JSONResponse`, and the banner and about endpoints (prajwalmain.py:56-62).
  Outcomes are values of the `Error` datatype instead.
- Floating point: BMI is computed on exact reals. The rounding of the float
  division and of the binary representation of decimals is not modelled, so
  a value such as 2.675, which is stored as slightly less than 2.675 in
  binary, is rounded here as an exact tie. Nor are the float exceptions of
  `self.height ** 2` (prajwalmain.py:21): a height above about 1.3e154
  overflows and raises, and a height below about 1.6e-162 squares to 0.0 so
  the division raises. The source then answers with a server error and saves
  nothing.
- `Collection.Create` reports success for every valid body with a new id; it
  does not model the float exception paths above, which make the source fail
  at prajwalmain.py:118 for extreme heights.
- `Collection.Update` reports success for every accepted body without nulls
  for a known id; it does not model the float exception paths above, which
  make the source fail at prajwalmain.py:145 for extreme heights.
- Pydantic details are not modelled: coercion of JSON values between types,
  the ignored extra keys `bmi` and `verdict` when a record is rebuilt, and
  the exact wording and order of validation errors. Validation reports the
  set of offending fields.
- The default of 0 in `x.get(sort_by, 0)` (prajwalmain.py:104) cannot occur
  here. Every stored record has height, weight and bmi.
- The default `order="asc"` of the sort query is a default of the HTTP
  parameter. Callers of the model pass "asc" explicitly.
- Python's `sorted` (Timsort) is modelled by an insertion sort.
  `Sorting.StableSortUnique` shows that every stable sort gives the same
  result, so the choice of algorithm does not change the answer.
- Concurrency: none exists in the code. Each request is one sequential
  read-modify-write.
