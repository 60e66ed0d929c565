# Holding-record gathering, modelled in Dafny

The pipeline takes a list of bibliographic MMS IDs through two gathering
stages:

- West 2 asks the catalogue for the holding IDs of each MMS ID. It writes one
  pair line `holdingID<TAB>mmsID<NEWLINE>` per holding.
- West 3 reads those pair lines back. For each pair it fetches the holdings
  record in MARCXML and normalises it:
  - field 001 (Control Number) must hold the holding ID;
  - field 004 (Control Number for Related Bibliographic Record, MARC 21 Format
    for Holdings Data) must hold the MMS ID.

A field that already exists is overwritten in place. A missing 001 is inserted
directly after the leader. A missing 004 is inserted before the first control
field whose tag, read as a number, is 4 or more. It goes after all control
fields when there is no such field.

The model has eight modules:

- `Options`: the `Option` datatype.
- `Text`: Python 2's `unicode.strip()`, with its Unicode whitespace table, and
  `split` on one separator character, with split/join laws.
- `PairLines`: the pair-line format and its parse, `ParsePair`. The parse
  strips, splits on tab and takes pieces 0 and 1, each stripped again.
- `MarcRecord`: the children of the MARCXML `record` element.
  - the `Field` datatype (leader, control field, data field);
  - the first-match lookup `.find` performs;
  - `.findall('.//controlfield')`;
  - lxml's `insert`, which appends when the index is past the end;
  - the record layout (leader, then control fields, then data fields).
- `Normalization`: the two steps as functions, the `while` scan as a method,
  and the class `HoldingRecord`, whose `children` the methods edit in place.
- `NormalizationProperties`: everything proved about the two steps:
  - the final values of 001 and 004;
  - where new fields land;
  - every other field is unchanged and keeps its relative order;
  - sorted control fields stay sorted;
  - idempotence;
  - the two worked examples.
- `GatherHoldingIds` (West 2) and `GatherHoldingRecords` (West 3): the two
  driver loops as methods, each proved equal to a specification function.
  - `GatherHoldingIds` proves the fan-out laws and the parse-back of every
    line West 2 writes.
  - `GatherHoldingRecords` proves the end-to-end fact: when West 3 reads a line
    West 2 wrote, it yields a record stamped with that pair's IDs.

The two catalogue requests are function parameters:

- `lookup` maps an MMS ID to its list of holding IDs.
- `fetch` maps an MMS ID and a holding ID to the record's children.

Where the code raises, the model returns `None` or `ok == false`. That
happens on a pair line without a tab, on `int()` of a control tag that is not
a number, and on assigning lxml an ID it refuses as text (an ASCII control
character other than tab, line feed or carriage return).

Behaviour of the code worth knowing, which the model keeps:

- **Ordering.** The code never re-sorts the control fields; it keeps the
  order it finds and inserts at a scanned position. So `NormalizeKeepsOrder`
  assumes a record whose control fields are already sorted, contiguous after
  the leader, and tagged 1 or more, and proves the sorted layout survives.
- **Blank lines.** West 2 does not reject a blank MMS-ID line: it strips it to
  the empty string and queries the catalogue with that. `GatherHoldingIds`
  does the same.
- **Non-numeric tags.** A control tag that is not a number makes the code
  raise only if the 004 scan reaches it before it stops. This is
  `InsertionPoint` returning `None`.
- **Duplicate 001/004 fields.** The code overwrites the first match in
  document order, and so does the model. No precondition excludes duplicates.

## Model

| member | source | states |
|---|---|---|
| `Text.TrimLeft` | west3_gather_Holding_Records.py:118 | drops the leading whitespace only: the result is a suffix of the input, everything dropped is whitespace, and it does not start with whitespace |
| `Text.TrimRight` | west3_gather_Holding_Records.py:118 | drops the trailing whitespace only: the result is a prefix of the input, everything dropped is whitespace, and it does not end with whitespace |
| `Text.TrimLeftNoLead` | west3_gather_Holding_Records.py:118 | a string that does not start with whitespace has nothing to drop on the left |
| `Text.TrimRightAppendSpace` | west3_gather_Holding_Records.py:118 | appending whitespace to a string that does not end with whitespace adds nothing the right trim keeps |
| `Text.Strip` | west3_gather_Holding_Records.py:118-120 | the stripped string is no longer than the input and has no whitespace at either end |
| `Text.StripMiddle` | west2_gather_Holding_IDs.py:115 | `strip()` keeps one middle slice of the input, and everything it drops before and after that slice is whitespace |
| `Text.MiddleSlice` | west3_gather_Holding_Records.py:118 | a prefix of a suffix of `s` is the slice of `s` that starts where the suffix does |
| `Text.StripFixedPoint` | west2_gather_Holding_IDs.py:115 | `strip()` leaves a string unchanged exactly when it has no whitespace at either end |
| `Text.StripSurrounded` | west3_gather_Holding_Records.py:118 | stripping an already stripped string followed by whitespace (the newline) gives back that string |
| `Text.Split` | west3_gather_Holding_Records.py:118 | `split` gives at least one piece; no piece contains the separator; joining the pieces gives back the input; there are two or more pieces exactly when the separator occurs |
| `Text.SplitJoin` | west3_gather_Holding_Records.py:118 | splitting the join of separator-free pieces gives back those pieces |
| `Text.XmlText` | west3_gather_Holding_Records.py:127-130 | the text lxml's `.text` setter accepts: no ASCII control character except tab, line feed and carriage return |
| `PairLines.PairLine` | west2_gather_Holding_IDs.py:118 | the line written for one holding: holding ID, tab, MMS ID, newline; `ParsePairLine` reads it back |
| `PairLines.ParsePair` | west3_gather_Holding_Records.py:118-120 | the parse fails exactly when the stripped line has no tab; otherwise both IDs are stripped and contain no tab |
| `PairLines.ParsePairLine` | west3_gather_Holding_Records.py:118-120 | parsing `h + TAB + m + NEWLINE` gives back `(h, m)` for non-empty IDs that contain no whitespace |
| `PairLines.ParsePairRejectsTablessLine` | west3_gather_Holding_Records.py:118-120 | a line without a tab has no second piece and is rejected |
| `MarcRecord.TagValue` | west3_gather_Holding_Records.py:139 | `int(tag)` on a tag of decimal digits; `TargetTags` and `SmallTagValues` fix its value on the tags the examples use |
| `MarcRecord.FirstControl` | west3_gather_Holding_Records.py:125 | the index of the first control field with the given tag, and no earlier one has that tag; `None` exactly when no child has that tag |
| `MarcRecord.FirstControlAt` | west3_gather_Holding_Records.py:130 | a match with no earlier match is the one `.find` selects |
| `MarcRecord.ControlValue` | west3_gather_Holding_Records.py:125 | the text of the first control field with the given tag, if one exists; `ControlNumberStamped` and `RelatedRecordStamped` state what the steps make of it |
| `MarcRecord.ControlFields` | west3_gather_Holding_Records.py:138 | `findall` returns only control fields and never more children than there are; `ControlFieldsMembers` and `ControlFieldsConcat` give the rest |
| `MarcRecord.ControlFieldsMembers` | west3_gather_Holding_Records.py:138 | every control field of the children is in `findall`'s result, and everything in the result is one of the children |
| `MarcRecord.ControlFieldsConcat` | west3_gather_Holding_Records.py:138 | `findall` keeps document order: the control fields of two runs of children are those of the first run, then those of the second |
| `MarcRecord.Insert` | west3_gather_Holding_Records.py:128 | inserting at index `k` (or appending when `k` is past the end) puts the new field at that index, keeps the children before it and shifts those after it right by one |
| `MarcRecord.ControlValueInsertOther` | west3_gather_Holding_Records.py:128 | inserting a field with another tag leaves the first value with the given tag unchanged |
| `MarcRecord.ControlValueUpdateOther` | west3_gather_Holding_Records.py:130 | rewriting a field with another tag leaves the first value with the given tag unchanged |
| `MarcRecord.ControlBlock` | west3_gather_Holding_Records.py:141-142 | when control fields come before data fields, `findall` returns exactly the leading block and everything after it is a data field |
| `MarcRecord.RecordControlBlock` | west3_gather_Holding_Records.py:141-142 | in a well-formed record the control fields are the children at indices 1 to their count, and the rest are data fields |
| `Normalization.SetControlNumber` | west3_gather_Holding_Records.py:124-130 | the 001 step for a holding ID lxml accepts; its properties are the `ControlNumber…` lemmas |
| `Normalization.SetRelatedRecord` | west3_gather_Holding_Records.py:132-145 | the 004 step, `None` where lxml rejects the MMS ID or the scan raises; its properties are the `RelatedRecord…` lemmas |
| `Normalization.Normalized` | west3_gather_Holding_Records.py:124-145 | both steps, 001 first, `None` where lxml rejects an ID or the scan raises; its properties are the `Normalize…` lemmas |
| `Normalization.InsertionPoint` | west3_gather_Holding_Records.py:137-140 | the scan stops at the first control field whose tag is 4 or more, or at the end; every field before that point has a numeric tag below 4; it fails exactly when a non-numeric tag comes before any tag of 4 or more |
| `Normalization.ScanInsertionPoint` | west3_gather_Holding_Records.py:137-140 | the `while` loop succeeds exactly when `InsertionPoint` does and stops at the index it gives |
| `Normalization.HoldingRecord.constructor` | west3_gather_Holding_Records.py:122 | the record's children are the fetched ones |
| `Normalization.HoldingRecord.StampControlNumber` | west3_gather_Holding_Records.py:124-130 | succeeds exactly when lxml accepts the holding ID as text; the children become `SetControlNumber` of the old children, or stay unchanged on failure |
| `Normalization.HoldingRecord.StampRelatedRecord` | west3_gather_Holding_Records.py:132-145 | succeeds exactly when `SetRelatedRecord` does (lxml accepts the MMS ID and the scan does not raise); the children become its result, or stay unchanged on failure |
| `Normalization.HoldingRecord.Normalize` | west3_gather_Holding_Records.py:124-145 | succeeds exactly when `Normalized` does; the children become its result. On failure they stay as the 001 step left them: changed if the holding ID was accepted, unchanged otherwise |
| `NormalizationProperties.TargetTags` | west3_gather_Holding_Records.py:139 | tags 001 and 004 read as the numbers 1 and 4 |
| `NormalizationProperties.UntargetedConcat` | west3_gather_Holding_Records.py:124-145 | the children other than 001/004 of a concatenation are those of each part, concatenated |
| `NormalizationProperties.UntargetedInsert` | west3_gather_Holding_Records.py:128 | inserting a 001 or 004 field leaves every other child where it was relative to the rest |
| `NormalizationProperties.UntargetedRewrite` | west3_gather_Holding_Records.py:130 | rewriting the text of a 001 or 004 field leaves every other child as it was |
| `NormalizationProperties.ControlNumberOverwritten` | west3_gather_Holding_Records.py:129-130 | with a 001 present: same length, the first 001 now holds the holding ID, every other child is unchanged |
| `NormalizationProperties.ControlNumberInserted` | west3_gather_Holding_Records.py:125-128 | with no 001: one new 001 holding the holding ID directly after the leader, then all previous children in order |
| `NormalizationProperties.ControlNumberStamped` | west3_gather_Holding_Records.py:124-130 | after the 001 step, the first 001 holds the holding ID |
| `NormalizationProperties.ControlNumberKeepsRelated` | west3_gather_Holding_Records.py:124-130 | the 001 step does not change the first 004 value |
| `NormalizationProperties.RelatedRecordStamped` | west3_gather_Holding_Records.py:132-145 | after a successful 004 step, the first 004 holds the MMS ID and the first 001 value is unchanged |
| `NormalizationProperties.RelatedRecordOverwritten` | west3_gather_Holding_Records.py:144-145 | an existing 004 keeps its position and only its text changes to the MMS ID; the length and every other child stay as they were |
| `NormalizationProperties.RelatedRecordSlot` | west3_gather_Holding_Records.py:137-143 | with no 004, the new one lands at index `p = 1 + InsertionPoint`. Every control field before `p` has a tag below 4. At `p` there is either the first control field with a tag of 4 or more, or the first child after the control block. The result is the record with the 004 spliced in at `p`, or `None` if lxml rejects the MMS ID |
| `NormalizationProperties.NormalizedSucceeds` | west3_gather_Holding_Records.py:127-145 | when every control tag is numeric, normalisation succeeds exactly when lxml accepts both IDs as text |
| `NormalizationProperties.AllControlTagsNumeric` | west3_gather_Holding_Records.py:138-139 | every element `findall` returns has a numeric tag when every control field does |
| `NormalizationProperties.NormalizedStamps` | west3_gather_Holding_Records.py:124-145 | after normalisation the first 001 holds the holding ID and the first 004 the MMS ID |
| `NormalizationProperties.ControlNumberKeepsOthers` | west3_gather_Holding_Records.py:124-130 | the 001 step changes no child other than 001 and 004 fields, and grows the record by one exactly when 001 was missing; `ControlNumberKeepsRelated` adds that the first 004 is kept |
| `NormalizationProperties.RelatedRecordKeepsOthers` | west3_gather_Holding_Records.py:132-145 | the 004 step changes no child other than 001 and 004 fields, and grows the record by one exactly when 004 was missing; `RelatedRecordStamped` adds that the first 001 is kept |
| `NormalizationProperties.NormalizedKeepsOthers` | west3_gather_Holding_Records.py:124-145 | every child other than 001/004 keeps its value and relative order; the record grows by one child for each of the two fields that was missing |
| `NormalizationProperties.AlreadyStamped` | west3_gather_Holding_Records.py:129-130 | a record whose first 001 and first 004 already hold the IDs comes out identical, unless lxml rejects an ID |
| `NormalizationProperties.NormalizeIdempotent` | west3_gather_Holding_Records.py:144-145 | normalising twice with the same IDs equals normalising once |
| `NormalizationProperties.RewriteKeepsOrder` | west3_gather_Holding_Records.py:130 | rewriting a control field's text keeps the layout and the sorted order |
| `NormalizationProperties.InsertKeepsLayout` | west3_gather_Holding_Records.py:128 | inserting a control field within the control block keeps the leader, then controls, then data layout |
| `NormalizationProperties.InsertKeepsSorted` | west3_gather_Holding_Records.py:143 | inserting a control field between the smaller-or-equal and the greater-or-equal tags keeps the control fields sorted |
| `NormalizationProperties.ControlNumberKeepsOrder` | west3_gather_Holding_Records.py:128 | on a well-formed, sorted record with control tags 1 or more, the 001 step keeps it well-formed and sorted |
| `NormalizationProperties.RelatedRecordKeepsOrder` | west3_gather_Holding_Records.py:139-143 | on a well-formed, sorted record, the 004 step succeeds exactly when lxml accepts the MMS ID, and then keeps the record well-formed and sorted |
| `NormalizationProperties.NewRelatedKeepsOrder` | west3_gather_Holding_Records.py:137-143 | on a well-formed, sorted record without a 004, inserting the 004 keeps the layout and the sorted order |
| `NormalizationProperties.NormalizeKeepsOrder` | west3_gather_Holding_Records.py:128-143 | for a well-formed, sorted record with control tags 1 or more, normalisation succeeds exactly when lxml accepts both IDs, and then the control fields stay contiguous after the leader, sorted, and ahead of every data field |
| `NormalizationProperties.SmallTagValues` | west3_gather_Holding_Records.py:139 | tags 002 and 005 read as 2 and 5 |
| `NormalizationProperties.ScanExample` | west3_gather_Holding_Records.py:137-140 | the scan over 001, 002, 005, 008 stops at the third field |
| `NormalizationProperties.BetweenControlNumber` | west3_gather_Holding_Records.py:125-128 | on control fields 002, 005, 008, the 001 step puts the new 001 right after the leader |
| `NormalizationProperties.NormalizeBetweenExample` | west3_gather_Holding_Records.py:124-143 | control fields 002, 005, 008 become 001, 002, 004, 005, 008, holding the given values (when lxml accepts both IDs) |
| `NormalizationProperties.BetweenRelatedRecord` | west3_gather_Holding_Records.py:133-143 | after that, the 004 goes in between 002 and 005, because the scan counts the new 001 |
| `NormalizationProperties.BetweenScan` | west3_gather_Holding_Records.py:137-140 | over a leader and control fields 001, 002, 005, 008 there is no 004 and the scan stops at 005 |
| `NormalizationProperties.OnlyControlFields` | west3_gather_Holding_Records.py:138 | `findall` over control fields only returns them all, in order |
| `NormalizationProperties.NoControlFields` | west3_gather_Holding_Records.py:138 | a sequence of data fields only has no control fields |
| `NormalizationProperties.BareControlNumber` | west3_gather_Holding_Records.py:125-128 | on a record of a leader and data fields only, the 001 step puts the new 001 directly after the leader |
| `NormalizationProperties.NormalizeBareExample` | west3_gather_Holding_Records.py:124-143 | a record of a leader and data fields becomes leader, 001, 004, then the same data fields (when lxml accepts both IDs) |
| `NormalizationProperties.BareRelatedRecord` | west3_gather_Holding_Records.py:133-143 | on a leader, a 001 and data fields, the 004 step puts the 004 right after the 001 |
| `NormalizationProperties.BareScan` | west3_gather_Holding_Records.py:137-140 | over a leader, a 001 and data fields there is no 004 and the scan passes the 001 to the end |
| `GatherHoldingIds.LinesFor` | west2_gather_Holding_IDs.py:117-118 | one line per holding ID, in list order, each `hID + TAB + mmsID + NEWLINE` |
| `GatherHoldingIds.Emitted` | west2_gather_Holding_IDs.py:108-118 | everything written for a list of MMS IDs: the lines of each in turn; its properties are `EmittedLength`, `EmittedConcat`, `EmittedAt` and `EmittedOrigin` |
| `GatherHoldingIds.HoldingCount` | west2_gather_Holding_IDs.py:116-117 | the total number of holdings found for a list of MMS IDs, independently of the lines; `EmittedLength` ties the two |
| `GatherHoldingIds.GatherHoldingIds` | west2_gather_Holding_IDs.py:107-120 | the lines written are `Emitted` of the input lines, each stripped as at line 115, in input order; `count` is the number of input lines |
| `GatherHoldingIds.LinesForSnoc` | west2_gather_Holding_IDs.py:117-118 | the lines for one more holding ID are those for the earlier ones followed by its own line |
| `GatherHoldingIds.EmittedSnoc` | west2_gather_Holding_IDs.py:108-118 | the output for one more MMS ID is the earlier output followed by that MMS ID's lines |
| `GatherHoldingIds.EmittedLength` | west2_gather_Holding_IDs.py:117-118 | the output has as many lines as the holding lists have elements in total |
| `GatherHoldingIds.EmittedConcat` | west2_gather_Holding_IDs.py:108 | the output for two batches of MMS IDs is the first batch's output followed by the second's; the counts add up |
| `GatherHoldingIds.EmptyListEmitsNothing` | west2_gather_Holding_IDs.py:116-118 | an MMS ID with no holdings adds no line |
| `GatherHoldingIds.EmittedAt` | west2_gather_Holding_IDs.py:108-118 | the line for holding `j` of MMS ID `n` comes after all lines of earlier MMS IDs and of earlier holdings of that MMS ID, and reads `hID + TAB + mmsID + NEWLINE` |
| `GatherHoldingIds.EmittedOrigin` | west2_gather_Holding_IDs.py:108-118 | every output line is the line of some holding of some MMS ID, at the position `EmittedAt` gives |
| `GatherHoldingIds.EmittedLinesParse` | west2_gather_Holding_IDs.py:118 | every line written, parsed back as West 3 does, gives the holding ID and MMS ID written at that position, when the IDs are non-empty and contain no whitespace |
| `GatherHoldingRecords.Processed` | west3_gather_Holding_Records.py:118-145 | what one pair line turns into: parse, fetch, normalise; `None` where West 3 raises |
| `GatherHoldingRecords.WrittenForExtend` | west3_gather_Holding_Records.py:111-150 | appending the next line's record keeps the records matched to the input lines, in order |
| `GatherHoldingRecords.GatherHoldingRecords` | west3_gather_Holding_Records.py:111-150 | record `k` is what line `k` turns into. The run succeeds exactly when every line was processed. Otherwise it stops at the first line that raises, and the records before it stay written |
| `GatherHoldingRecords.PipelineStampsIds` | west3_gather_Holding_Records.py:118-145 | for non-empty IDs free of whitespace that lxml accepts as text, and records fetched for the listed pairs whose control tags are numeric: line `k` that West 2 writes (holding `j` of MMS ID `n`, at position `HoldingCount` of the earlier MMS IDs plus `j`) turns in West 3 into a record whose first 001 is that holding ID and whose first 004 is that MMS ID |

## Left out

- The catalogue calls `GetHoldingIDs` (west2) and `GetHoldingXML` (west3): URL building, HTTP and XML parsing. They are the parameters `lookup` and `fetch`, assumed deterministic, and a `None` text of a `holding_id` element is not modelled.
- Serialising and pretty-printing each record with lxml (west3 line 150), and the `<collection>` wrapper (lines 108 and 153). Foreign-library formatting; `GatherHoldingRecords` returns the normalised children in write order instead.
- West 1 (MMS-ID extraction) and West 4 (MARCXML to binary MARC conversion). Both are thin wrappers over pymarc's codecs, which are not part of this model.
- Command-line handling, file checks, date-stamped file names, progress messages every 250 items, and the `codecs` file streams. Input files are sequences of lines; output files are sequences of lines or records.
- The `count` of West 3 is used only in progress messages and is not modelled.
- `MarcRecord.FirstControl`: the fetched document is identified with its `record` element. A control field outside `record` would be found by `.//controlfield` in West 3 but is not represented.
- A fetched document with no `record` element makes West 3 raise on `insert`. This is not modelled; the children are always present.
- A control field whose text is missing (`None` in lxml) is modelled as carrying a string.
- Reading the pair-line file line by line, which also breaks lines at other line-break characters, is not modelled: the lines are given. `GatherHoldingRecords.PipelineStampsIds` and `GatherHoldingIds.EmittedLinesParse` take IDs that contain no whitespace, and every such line-break character is whitespace, so each pair line West 2 writes stays one line.
- `Text.XmlText` models the text check lxml makes on Python 2 unicode strings. That check rejects only ASCII control characters; other checks in lxml are not part of this model.
- `Normalization.InsertionPoint`: a numeric tag is a non-empty string of ASCII digits. Python's `int()` also accepts a sign, surrounding whitespace and non-ASCII decimal digits; such tags make the model fail where West 3 would go on scanning.
