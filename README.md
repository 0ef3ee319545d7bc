# fhir-petl in Dafny

A Dafny model of the record-consolidation engine of `csv_fhirify.py` and the
FHIR value builders of `fhir_petl/fhir.py`, `fhir_petl/util.py` and the older
`fhir.py`. Nothing here reads or writes a file: the model works on the values
those scripts handle.

- **Row loader** (`row_loader.dfy`, module `RowLoader`). `generate_row_info`
  folds the data rows of several CSV sources into a dict of records keyed by
  the join-column value. Each source is a header line and a list of lines.
  `get_row_indices` turns the kept column names into header positions.
  The keep list is `columns_to_keep`, or else `multiple_columns_to_keep`.
  The loops are methods, each proved to compute a function. The properties
  are lemmas on those functions, per source and across the sources:
  - which sources and rows fold without error, and with which error;
  - that the last write wins per key and column;
  - that a column survives every later source that does not write it;
  - that keys no row carries are untouched.
- **Duplicate resolver** (`duplicate_resolver.dfy`, module
  `DuplicateResolver`). `find_duplicates` pairs keys that are equal once
  their first character is dropped. `determine_override_key` and
  `choose_value_by_key` pick a side by the priority marker. `merge_dict` and
  `merge_duplicates` merge the common fields of each pair.
  `remove_duplicate_row_info` and `merge_dict_overwrite_first` replace the
  paired records with the merged ones.
- **Row mapper** (`row_mapper.dfy`, module `RowMapper`). `transform_single_row_info`
  picks a value for each target field from its candidate columns.
  `transform_multi_row_info` fans one record out into one row per value
  column with a value. The two list-level drivers apply these to every
  stored record.
- **Python values** (`py_values.dfy`, `dicts.dfy`, `text.dfy`, `outcomes.dfy`).
  - A Python dict with string keys is an insertion-ordered `ODict` in the
    CSV part, and a list of entries in the FHIR part.
  - The `Py` datatype stands for the Python objects a petl record holds.
    A date is represented by the text its `isoformat()` returns.
  - `str.strip` and string order are written out.
  - A raised exception is the `Err` of a `Result`.
- **FHIR datatypes** (`fhir_types.dfy`, module `FhirTypes`): `tuple_to_code`,
  `to_codeable_concept`, `to_quantity`, `to_simple_quantity`, `to_range`,
  `to_ratio` and `to_timing`. Each holds exactly the truthy parts of its
  input.
- **Resources** (`fhir_resources.dfy`, `fhir_builders.dfy`, `fhir_dosage.dfy`).
  - Every builder sets `id` and `resourceType`, then runs a list of
    if-statements. Each if-statement is a `Step`: it tests a field with
    `has` and inserts the converted value under one key.
  - Generic lemmas about running steps give, for every builder, when it
    raises and what each key holds.
  - `to_dosage` fills the dosage and a `doseAndRate` dict.
    `to_med_administration` merges that dict into the dosage and renames
    `doseQuantity` to `dose`.
  - As in the code, `doseRange` is built with `to_ratio`.
  - `to_med_statement` runs its indication and route ifs twice. The
    second run is proved to change nothing.
- **Older builders** (`legacy_fhir.dfy`, module `LegacyFhir`).
  - The older `to_observation` and `to_med_dispense` read every field with
    `rec[field]`, so a missing field raises `KeyError`. They test the field
    itself for truthiness.
  - The older `join`, `resolve`, `tuple_to_code` and `to_codeable_concept`
    behave as the newer ones do. The same members model both copies, and
    their rows name the older lines.
- **Util** (`util.dfy`, module `Util`): `join`, `resolve` with the command
  line as a parameter, and the guard of the parser `dateparser` returns.

Where the code and its comments disagree, the model follows the code. The
candidate loop of `transform_single_row_info` runs over the candidates in
reverse and never breaks. So the first-listed qualifying candidate wins,
not the last one.

## Model

| member | source | states |
|---|---|---|
| RowLoader.GetCurrentRow | csv_fhirify.py:13-17 | the stored record for a known key, a new empty record otherwise |
| RowLoader.IndexOf | csv_fhirify.py:25 | list.index: the position of the first occurrence, which the name occupies and no earlier position holds |
| RowLoader.RowIndicesMeaning | csv_fhirify.py:20-33 | get_row_indices succeeds iff every kept name is a header, and otherwise raises ValueError for the first missing name, so the `> -1` guard never drops a name. The result lists the header position of each kept name, in order, with nested lists flattened one level. Different positions name different columns |
| RowLoader.LookUpNames | csv_fhirify.py:29-32 | the inner loop of get_row_indices computes the positions of one entry's names, or the error for the first missing one |
| RowLoader.GetRowIndices | csv_fhirify.py:20-33 | the method computes RowIndices, whose meaning RowIndicesMeaning states |
| RowLoader.StoreCellsOverwrites | csv_fhirify.py:57-62 | one row succeeds iff it is long enough. The record then gains exactly the kept columns, each holding this row's cell, and keeps every other column |
| RowLoader.FoldRowSucceeds | csv_fhirify.py:55-62 | a row folds without error iff it has the join column and every kept column |
| RowLoader.FoldRowsSucceeds | csv_fhirify.py:55-62 | a file's rows fold without error iff every row has the join column and every kept column |
| RowLoader.FoldRowsUntouched | csv_fhirify.py:55-62 | a key that no row carries keeps its record, or stays absent |
| RowLoader.FoldRowsLastWriteWins | csv_fhirify.py:55-62 | after the last row with a given key, each kept column of that key's record holds that row's cell |
| RowLoader.FoldRowsKeepsColumn | csv_fhirify.py:55-62 | the rows of a source that does not keep a column leave that column of every stored record as it was |
| RowLoader.StoreRow | csv_fhirify.py:56-62 | the loop body computes FoldRow: look up the join column, update the aliased record in place, store it under the key |
| RowLoader.StoreRows | csv_fhirify.py:55-62 | the row loop computes FoldRows |
| RowLoader.LoadOneFile | csv_fhirify.py:42-62 | one source computes LoadFile: headers stripped of spaces, the optional skipped line, columns_to_keep if configured else multiple_columns_to_keep, then the row loop |
| RowLoader.LoadFileSucceeds | csv_fhirify.py:40-62 | one source raises TypeError without a header line, KeyError when neither keep list is configured, ValueError for the first kept name that is not a header, and otherwise succeeds iff every data line has the join column and every kept column |
| RowLoader.GenerateRowInfo | csv_fhirify.py:36-64 | the sources folded in order from an empty dict; the first error aborts |
| RowLoader.LoadFileKeeps | csv_fhirify.py:55-62 | a source that does not both carry a key and keep a column leaves that column of the key's record as it was |
| RowLoader.LoadFileLastWins | csv_fhirify.py:55-62 | within one source, each kept column of a key's record holds the cell of the last data line with that key |
| RowLoader.LoadFilesKeeps | csv_fhirify.py:39-62 | across the sources, a column of a stored record survives every file that does not both carry its key and keep the column |
| RowLoader.LoadFilesLastWins | csv_fhirify.py:39-62 | across the sources, a column of a key's record holds the cell of the last line with that key in the last source that carries the key and keeps the column |
| RowLoader.LoadFilesUntouched | csv_fhirify.py:39-62 | a key that no source carries keeps its record, or stays absent |
| RowLoader.HeadersStripped | csv_fhirify.py:43 | the header line keeps its length, and each name is its cell with the spaces at both ends cut off and no other character removed |
| Dicts.Put | csv_fhirify.py:60 | `d[k] = v`: k maps to v, and an existing key keeps its place while a new key goes last |
| Dicts.Pop | csv_fhirify.py:197 | `d.pop(k, None)`: k is gone, and every other key keeps its value and place |
| Dicts.Union | csv_fhirify.py:204 | `{**d1, **d2}`: the values of d2 override, and the keys of d1 come first in their order, then d2's new keys |
| Dicts.FilterOutTwice | csv_fhirify.py:195-197 | dropping one key set and then another is dropping their union |
| Text.StripIsSlice | csv_fhirify.py:74 | strip returns the slice of its input left once the whitespace at both ends is cut off: empty, or starting and ending with a non-whitespace character |
| Text.LessTotal | csv_fhirify.py:187 | of two different keys, exactly one sorts before the other |
| DuplicateResolver.Sorted2 | csv_fhirify.py:185-187 | sorted([a, b]) holds both keys, in increasing order |
| DuplicateResolver.FindDuplicates | csv_fhirify.py:175-190 | the nested loops compute Duplicates |
| DuplicateResolver.ScanKey | csv_fhirify.py:181-188 | the inner loop computes ScanInner |
| DuplicateResolver.DuplicatesExactly | csv_fhirify.py:175-190 | find_duplicates returns no pair twice. A pair is returned iff it is sorted, its two keys are different dict keys, and they agree once the first character is dropped |
| DuplicateResolver.DuplicateKeysAreTwins | csv_fhirify.py:175-190 | the keys that occur in some pair are exactly the keys that have a twin |
| DuplicateResolver.ChooseValue | csv_fhirify.py:273-285 | the result is "" iff both values are empty. With both non-empty it is the override side, where None counts as the second side. Otherwise it is the non-empty one |
| DuplicateResolver.ChooseValueSymmetric | csv_fhirify.py:273-285 | swapping the values and negating the override picks the same value; a None override picks as False does |
| DuplicateResolver.DetermineOverride | csv_fhirify.py:288-298 | True iff dict1 has a join value starting with the marker. False iff not, and dict2's join value starts with it. It raises iff a join value it reads is empty, or dict1's is unmarked or absent and dict2 lacks the join key (KeyError). None otherwise |
| DuplicateResolver.MergeFieldsMeaning | csv_fhirify.py:307-311 | the merged record has exactly the keys common to both records, in dict1's order, each holding the value choose_value_by_key picks |
| DuplicateResolver.MergeLoop | csv_fhirify.py:307-311 | the loop of merge_dict computes MergeFields |
| DuplicateResolver.MergeDict | csv_fhirify.py:301-311 | merge_dict raises what determine_override_key raises, and otherwise returns MergeFields |
| DuplicateResolver.MergeKeepsMarkedKey | csv_fhirify.py:288-311 | when either join value is marked and both are non-empty, the merged record keeps a marked join value: dict1's when dict1's is marked, else dict2's |
| DuplicateResolver.MergeDuplicates | csv_fhirify.py:314-332 | the loop computes MergeAll: each pair merged and filed under its merged join value, and a missing key raises |
| DuplicateResolver.MergeAllFiledByJoinValue | csv_fhirify.py:328-330 | every merged record is filed under its own join value |
| DuplicateResolver.MergeAllSource | csv_fhirify.py:318-332 | every record merge_duplicates returns is the merge of one of the pairs |
| DuplicateResolver.MergeAllCovers | csv_fhirify.py:318-332 | the merge of every pair is returned, filed under its join value |
| DuplicateResolver.RemovesPairKeys | csv_fhirify.py:193-198 | popping every key of every pair leaves the input without exactly those keys, with the others in their order |
| DuplicateResolver.RemoveDuplicateRowInfo | csv_fhirify.py:193-198 | the pop loop over a copy computes PopAll |
| DuplicateResolver.MergeDictOverwriteFirst | csv_fhirify.py:201-204 | the result has the keys of both dicts, the second dict's values win, and the first dict's keys keep their order at the front |
| DuplicateResolver.CleanDuplicates | csv_fhirify.py:207-221 | the method computes Clean: the paired keys are removed and the merged records are added over them |
| DuplicateResolver.CleanOutcome | csv_fhirify.py:207-221 | after cleaning, every key without a twin is still present. Each record is either the input's record under a key without a twin, or the merge of a pair find_duplicates returns, filed under its own join value |
| DuplicateResolver.CleanFilesMerges | csv_fhirify.py:207-221 | after cleaning, the join value of every pair's merge is a key, and the record there is a merge of a pair, overriding any input record under that key |
| RowMapper.FirstQualifyingIsFirst | csv_fhirify.py:75-80 | when several candidates qualify, the reversed loop without break leaves the first listed one's stripped value |
| RowMapper.Field | csv_fhirify.py:70-80 | no candidate sets nothing. One candidate sets the stripped cell iff the column exists, with no sentinel filter. Several candidates set a value iff one qualifies, and that value is never a sentinel |
| RowMapper.MapRowMeaning | csv_fhirify.py:67-82 | the mapped row has a target field iff the mapping lists it and Field gives it a value, and then it holds that value |
| RowMapper.MapField | csv_fhirify.py:72-80 | one target field's branch computes Apply of Field |
| RowMapper.TransformSingleRowInfo | csv_fhirify.py:67-82 | the loop over the target fields computes MapRow |
| RowMapper.DateCell | csv_fhirify.py:107-111 | the date is set iff the date column exists and its stripped cell is neither a sentinel nor "". It holds the unstripped cell |
| RowMapper.MultiRecordValue | csv_fhirify.py:103-111 | each fanned-out row holds VALUE, VALUE_CODE (the column name) and VALUE_TYPE, and VALUE_DATE exactly when there is a date |
| RowMapper.MultiRecordKeeps | csv_fhirify.py:103 | its other fields are those of the single-row mapping |
| RowMapper.MultiRowsLength | csv_fhirify.py:95-113 | at most one row per position of the zipped lists, so no more rows than the shortest list has items |
| RowMapper.MultiRowsSound | csv_fhirify.py:95-113 | each returned row is the row of a zipped position whose value column has a value |
| RowMapper.MultiRowsComplete | csv_fhirify.py:95-113 | each zipped position whose value column has a value gives its row |
| RowMapper.MultiRowsSnoc | csv_fhirify.py:95-113 | the rows for the first n + 1 zipped positions are those for the first n, then the row of position n if its value column has a value: one row per qualifying position, in position order |
| RowMapper.MultiRowsZip | csv_fhirify.py:95-97 | zip stops at the shortest list: only the first positions up to the shortest length matter |
| RowMapper.TransformMultiRowInfo | csv_fhirify.py:85-116 | the loop computes MultiRows |
| RowMapper.AllMultiRowsMeaning | csv_fhirify.py:124-134 | a row is returned iff it is a multi-row output of some stored record |
| RowMapper.AllMultiRowsInOrder | csv_fhirify.py:124-134 | the result is the rows of the first stored record, then those of the second, and so on in the dict's order |
| RowMapper.AllMultiRowsPut | csv_fhirify.py:124-134 | storing a new record last appends exactly its rows |
| RowMapper.TransformSingleRowToMultiRow | csv_fhirify.py:124-134 | the loop computes AllMultiRows |
| RowMapper.TransformSingleRowToSingleRow | csv_fhirify.py:138-162 | the loop computes SingleRows |
| RowMapper.SingleRowsSucceeds | csv_fhirify.py:159-161 | it succeeds iff every mapped record has the join field, and otherwise raises KeyError for it |
| RowMapper.SingleRowsDistinct | csv_fhirify.py:138-162 | no two returned rows share a join value |
| RowMapper.SingleRowsLastWins | csv_fhirify.py:138-162 | a mapped record is returned as it is when no later record maps to the same join value |
| RowMapper.SingleRowsSound | csv_fhirify.py:138-162 | every returned row is a stored record, mapped, that no later stored record shares its join value with |
| RowMapper.SingleRowsOrder | csv_fhirify.py:156-162 | the join values of the returned rows, in order, are the distinct mapped join values in the order they first occur, as `new_rows[v] = row` keeps the place of v's first insertion |
| Util.Join | fhir_petl/util.py:57-62 | the loop computes Joined; the older join at fhir.py:7-12 is the same loop |
| Util.SpacedWords | fhir_petl/util.py:57-61 | before the strip, the text is empty, or a space followed by the truthy arguments' texts separated by single spaces |
| Util.JoinWords | fhir_petl/util.py:57-62 | when every truthy argument prints as a word, join separates their texts by single spaces |
| Util.JoinNothing | fhir_petl/util.py:57-62 | join() == "" |
| Util.JoinNumbers | fhir_petl/util.py:57-62 | join(1, 2, 3) == "1 2 3" |
| Util.JoinSkipsNone | fhir_petl/util.py:59-61 | join("1", 2, None) == "1 2": falsy arguments are skipped |
| Util.Resolve | fhir_petl/util.py:75-77 | argv[1] when given, else ".", then "/", then the path; the older resolve at fhir.py:22-24 is the same expression |
| Util.ParseDate | fhir_petl/util.py:12-17 | falsy text gives None without parsing. A str goes to the parser. Any other truthy value raises TypeError, as strptime does |
| FhirTypes.TupleToCode | fhir_petl/fhir.py:112-134 | a pair has no display, and a longer item must unpack to three parts. The coding holds exactly the truthy parts in the order system, code, display. It is None when all the parts are falsy. The older elif chain at fhir.py:48-68 yields the same codings |
| FhirTypes.PairHasNoDisplay | fhir_petl/fhir.py:113-115 | a pair never yields a display |
| FhirTypes.CodingsMeaning | fhir_petl/fhir.py:27 | the comprehension succeeds iff every item gives a dict. Every kept coding has a truthy code, every coding with a truthy code is kept, and no more than there are items |
| FhirTypes.CodingsOne | fhir_petl/fhir.py:27 | one item gives its coding when the code is truthy and nothing otherwise |
| FhirTypes.CodingsAppend | fhir_petl/fhir.py:27 | two lists one after the other give the first list's codings, then the second's, so the kept codings stay in order with their multiplicity; an error is the first one raised |
| FhirTypes.CodeableConceptMeaning | fhir_petl/fhir.py:22-27 | a value that is not a list is a list of one item. The concept's coding list is Codings of the items, whose order CodingsAppend states. The older to_codeable_concept at fhir.py:41-46 does the same |
| FhirTypes.QuantityMeaning | fhir_petl/fhir.py:81-94 | it succeeds iff the input unpacks to five parts. It holds exactly the truthy parts, in the order value, comparator, unit, system, code, so a zero value is dropped |
| FhirTypes.SimpleQuantityMeaning | fhir_petl/fhir.py:97-99 | it succeeds iff the input unpacks to four parts, never holds a comparator, and otherwise equals the quantity of the same parts |
| FhirTypes.RangeMeaning | fhir_petl/fhir.py:102-109 | low and high are present iff those parts are truthy, each built as a simple quantity |
| FhirTypes.RatioMeaning | fhir_petl/fhir.py:71-78 | numerator and denominator are present iff those parts are truthy, each built as a quantity |
| FhirTypes.TimingMeaning | fhir_petl/fhir.py:12-19 | the event is present iff it is truthy. The code is present iff it is truthy, and then it is built as a codeable concept, so a falsy code is left out |
| FhirResources.Field | fhir_petl/fhir.py:138 | rec[field] returns the field's value, or raises KeyError for a field the record lacks |
| FhirResources.Reference | fhir_petl/fhir.py:250 | "Patient/" + subject: only a str subject concatenates, and anything else raises TypeError |
| FhirResources.IsoFormat | fhir_petl/fhir.py:246 | only a date has isoformat; anything else raises AttributeError |
| FhirResources.ResourceBuilt | fhir_petl/fhir.py:241-253 | any builder raises KeyError("id") without an id, and succeeds iff none of its ifs raises. It then holds the id and the type, and each field's key holds the converted field exactly when has(rec, field) |
| FhirResources.ResourceIdle | fhir_petl/fhir.py:378-385 | running ifs that already ran, on fresh distinct keys, changes nothing |
| FhirResources.PeriodMeaning | fhir_petl/fhir.py:367-371 | an end date without a start raises KeyError. The dates must be dates. The period holds the start, then the end |
| FhirResources.SubjectMeaning | fhir_petl/fhir.py:287-294 | a truthy subject must be a str. It gives the reference "Patient/" + subject, with the display when there is one |
| FhirResources.ValueEntry | fhir_petl/fhir.py:295-304 | an observation's value goes under valueQuantity, valueCodeableConcept or valueString, or nowhere |
| FhirResources.NumericValueQuantity | fhir_petl/fhir.py:297-298 | the intended quantity of a truthy number holds exactly that number as its value |
| FhirResources.NumericValueRaises | fhir_petl/fhir.py:297-298 | as written, a numeric value goes to to_simple_quantity, whose unpacking raises TypeError |
| FhirResources.StrictOk | fhir.py:123-134 | an older if raises iff its field is missing, or the field is truthy and fails to convert |
| FhirResources.ResourceTested | fhir.py:119-135 | a resource built with the older ifs holds the converted field exactly when the field is truthy |
| FhirDosage.DoseAndRatePresent | fhir_petl/fhir.py:166-177 | doseAndRate raises iff a present field fails to convert. Otherwise it holds each such field, no key twice, and is non-empty iff the record has type, doseRange, doseQuantity, rateRatio, rateRange or rateQuantity |
| FhirDosage.DosageMeaning | fhir_petl/fhir.py:141-188 | to_dosage raises iff a present field fails to convert. It holds every dosage and maximum-dose field the record has, and doseAndRate as a one-element list iff the record has a dose or rate field. Nothing else, and no key twice |
| FhirDosage.First | fhir_petl/fhir.py:408 | the first item of a non-empty list |
| FhirDosage.MergeMeaning | fhir_petl/fhir.py:407-408 | merging never raises for a dosage as to_dosage builds it. Each key holds the doseAndRate dict's value, or else the dosage's own, and doseAndRate is gone |
| FhirDosage.RenameMeaning | fhir_petl/fhir.py:409-410 | doseQuantity's value moves to dose, and every other key keeps its value |
| FhirDosage.FlattenMeaning | fhir_petl/fhir.py:406-410 | flattening never raises. Each key holds the merged value with doseQuantity under dose, and no key twice |
| FhirDosage.AdministeredDosage | fhir_petl/fhir.py:406-411 | an administration's dosage shows the dosage fields, the dose-and-rate fields with the dose quantity under dose, and the maximum doses. It has neither doseAndRate nor doseQuantity |
| FhirBuilders.ProcedureMeaning | fhir_petl/fhir.py:241-253 | to_procedure raises KeyError("id") without an id, and raises iff a present field fails to convert. Otherwise it holds the date, code, subject reference and note exactly when the record has them |
| FhirBuilders.ConditionMeaning | fhir_petl/fhir.py:256-276 | the same for to_condition: onset, asserted date, code, body site, severity, subject, note and tag |
| FhirBuilders.MedDispenseMeaning | fhir_petl/fhir.py:312-328 | the same for to_med_dispense |
| FhirBuilders.MedDispenseDaysSupply | fhir_petl/fhir.py:324-325 | daysSupply is the record's own daysSupply in days, and absent without it |
| FhirBuilders.MedRequestMeaning | fhir_petl/fhir.py:331-345 | the same for to_med_request |
| FhirBuilders.PatientMeaning | fhir_petl/fhir.py:191-238 | the same for to_patient: identifier, extension, marital status, gender, birth and death dates, tag |
| FhirBuilders.PatientExtension | fhir_petl/fhir.py:203-227 | the extension is [race], or [ethnicity], or [ethnicity, race] when both are set, and absent when neither is |
| FhirBuilders.ObservationMeaning | fhir_petl/fhir.py:279-309 | the same for to_observation, with the subject and its display. As written it never succeeds on a record with a truthy numeric value, and otherwise shows a tuple value as a simple quantity, a list as a codeable concept and a str as a string |
| FhirBuilders.ObservationOfNumberRaises | fhir_petl/fhir.py:279-298 | as written, every record whose value is a truthy number makes to_observation raise, with TypeError once the ifs before the value pass |
| FhirBuilders.ObservationIntendedMeaning | fhir_petl/fhir.py:279-309 | the corrected to_observation succeeds exactly when its ifs pass, and shows a number's value as the quantity {"value": v} |
| FhirBuilders.MedStatementRepeatsIdle | fhir_petl/fhir.py:378-385 | the repeated indication and route ifs leave the statement as the first run built it |
| FhirBuilders.MedStatementMeaning | fhir_petl/fhir.py:348-386 | the same for to_med_statement |
| FhirBuilders.MedStatementShown | fhir_petl/fhir.py:359-371 | a statement shows the subject with its display as a str, and the period |
| FhirBuilders.MedAdministrationMeaning | fhir_petl/fhir.py:389-412 | to_med_administration raises KeyError("id") without an id. Otherwise it raises iff one of its ifs or to_dosage raises |
| FhirBuilders.MedAdministrationBuilt | fhir_petl/fhir.py:389-411 | it holds the status, subject, medication and note exactly when the record has them, and always a dosage: to_dosage's dict flattened |
| FhirBuilders.MedAdministrationPeriod | fhir_petl/fhir.py:399-403 | the effective period holds the start and then the end |
| LegacyFhir.ObservationMeaning | fhir.py:119-135 | the older to_observation raises KeyError("id") without an id, and succeeds iff no if raises. It holds the date, code and subject exactly when those fields are truthy |
| LegacyFhir.ObservationWithoutDate | fhir.py:121-123 | a record with an id but no date field raises KeyError("date") |
| LegacyFhir.ObservationValue | fhir.py:129-134 | an int or a float (not a bool) gives valueQuantity {value}, any other truthy value gives valueString, and a falsy value gives neither |
| LegacyFhir.MedDispenseMeaning | fhir.py:137-153 | the older to_med_dispense raises KeyError("id") without an id, and succeeds iff no if raises. Each key is present exactly when its tested field is truthy |
| LegacyFhir.DaysSupplyIsQuantity | fhir.py:149-150 | as written, daysSupply carries {value: rec['quantity'], unit: days}, so it differs from the record's daysSupply whenever the two fields differ |

## Left out

- File reading and CSV parsing (open, csv.reader, the UTF-8 BOM). A source is given as its list of lines, already split into cells.
- write_row_info: CSV writing is I/O.
- generate_csv: it is configured by the data_mappings module, which is not part of this model, and it writes a file. Its steps (GenerateRowInfo, CleanDuplicates, and the two transforms) are modelled one by one.
- The call to generate_csv when csv_fhirify.py is imported is a side effect of import.
- merge_to_master_dict: it is never called.
- to_json, json.dumps and the `types` table: these are serialization. Builders return the dict as a structured value.
- isoformat: a date is given by the text its isoformat() returns.
- strptime, FormattedDateTime and etl.numparser: these are library behaviour. ParseDate takes the parser as a parameter and models only its guard.
- sys.argv is a parameter of Resolve.
- mkdirp and preprocess: file system, uuid4 and petl table I/O.
- The older to_patient, to_procedure, to_condition and to_med_request are outside this model. The older observation and dispense builders show the older style (rec[field] and truthiness).
- csv_ref_map.py, the preprocess and explore scripts, and the example etl.py scripts: pandas, fuzzy matching, random sampling and import-time pipelines.
- Floating-point values are modelled as reals. Only their truthiness and their type matter to the builders.
- FhirBuilders.MedStatementShown: the display of the subject is converted with str() only for None, bool, int, str and dates (FhirResources.Displayed); a float, tuple, list or dict display is kept as the value itself.
- Util.Join: str() is spelled out for None, bool, int, str and dates only. Joined requires every truthy argument to be one of those.

## Findings

| source | as written | input that shows it | evidently intended | confidence | as-written member | corrected member |
|---|---|---|---|---|---|---|
| fhir_petl/fhir.py:297-298 | a numeric value is passed to to_simple_quantity, which unpacks it into four parts and raises TypeError | a record with an id and the int 37 as its value | valueQuantity {"value": 37} | not executed | FhirBuilders.ObservationOfNumberRaises | FhirBuilders.ObservationIntendedMeaning |
| fhir.py:149-150 | daysSupply is built from rec['quantity'] | a record with quantity 30 and daysSupply 7 gives daysSupply {"value": 30, "unit": "days"} | daysSupply {"value": 7, "unit": "days"}, as the newer to_med_dispense builds it | not executed | LegacyFhir.DaysSupplyIsQuantity | FhirBuilders.MedDispenseDaysSupply |
