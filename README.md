# crest4_utils maintenance scripts, modelled in Dafny

The crest4_utils scripts build and audit the flat files of a taxonomic reference
database (`.map`, `.names`, `.tre`, `.fasta`). This project models the logic of
three of them and proves properties of the model.

- **Rank-conflict checker** (`dev_scripts/find_duplicate_taxa.py`, class
  `AccessionTSV`). It reads a three-column TSV of accession, `/`-separated
  lineage and name. Digit-only lineage segments are glued back onto the
  segment before them. Each name at position *k* of the fixed lineage is
  recorded at rank *k*, and the first accession seen for each (name, rank)
  pair is kept. The report lists, in name order, every name found at more
  than one rank, with its ranks in ascending order and one example accession
  per rank. The gzip check on the file's first bytes is modelled too.
  - Module `RankConflicts`: the state is the class `AccessionTsv`, whose
    field `taxaLevels` stands for the cached `defaultdict`.
  - Module `Ordering`: `sorted()` of a set of names (Python's `<` on `str`)
    and of a set of ranks.
- **Identifier auditor** (`dev_scripts/analyze_tre_files.py`). It covers:
  - the duplicate finder `get_duplicates`;
  - the unnamed-node counter `check_empty_names`;
  - the comma-field extractors (`parse_map_ids`, `parse_map_names`,
    `parse_names_ids`);
  - which duplicate sets `__call__` reports: map names, tree ids, names ids
    and FASTA ids, but not map ids.

  Module `IdentifierAudit`.
- **Database converter** (`dev_scripts/convert_crest_db.py`): the two
  `process` generators of `convert_map` and `convert_names`.
  - Each strips a line, splits it on tabs and unpacks four fields.
  - The map conversion raises on a comma in a name and keeps only rows whose
    fraction field is `-1`. The names conversion stops at the first such row.
  - Both then sort by `int(num)` and write comma-joined lines.
  - Module `CrestConvert`, with the stable `list.sort(key=...)` in module
    `StableSort`.

  The proofs connect the converter to the auditor: every line the map
  conversion writes reads back, through the auditor's field extractors, as
  the stripped number and name. The numbers read back from the written
  lines never decrease.

`RankConflicts`, `IdentifierAudit` and `CrestConvert` end with worked
examples on small inputs, each proved from the general definitions: lineage
fixing, a rank conflict, a duplicate map name, and a map conversion that
drops a row and reorders the rest.

`Text` holds the ASCII model of the `str` operations the scripts use: `strip`,
`split`, `join`, `isdigit` and `int()`. `Wrappers` holds the `Option` and
`Result` types. Every exception the scripts raise becomes an `Err` value, not a
precondition:
- the tuple-unpacking `ValueError` for a wrong field count;
- the comma `Exception` in `convert_map`;
- `int()`'s `ValueError`;
- the `IndexError` of `parse_map_names` on a line without a comma.

## Model

| member | source | states |
|---|---|---|
| RankConflicts.ChooseOpener | dev_scripts/find_duplicate_taxa.py:40-46 | the file is opened with gzip exactly when it has at least two bytes and they are 0x1f 0x8b; shorter files are read as plain text |
| RankConflicts.FixPath | dev_scripts/find_duplicate_taxa.py:62-67 | the fixed-path loop computes `Normalise(path)`, which is empty exactly when the path is |
| RankConflicts.NormaliseNoBareDigits | dev_scripts/find_duplicate_taxa.py:63-67 | after fixing, no segment past the first is made of digits only |
| RankConflicts.NormaliseLength | dev_scripts/find_duplicate_taxa.py:63-67 | the fixed path is shorter than the split path by exactly the number of digit-only segments after the first |
| RankConflicts.NormaliseJoin | dev_scripts/find_duplicate_taxa.py:63-67 | joining the fixed segments with `/` gives the same text as joining the original segments |
| RankConflicts.LineageRoundTrip | dev_scripts/find_duplicate_taxa.py:60-67 | splitting a lineage on `/`, fixing it and joining it with `/` gives back the lineage |
| RankConflicts.NormaliseFlatten | dev_scripts/find_duplicate_taxa.py:63-67 | splitting every fixed segment on `/` again gives back the original segments in order |
| RankConflicts.NormaliseGlued | dev_scripts/find_duplicate_taxa.py:63-67 | every fixed segment splits on `/` into a first piece that is not digit-only (the first segment excepted) followed only by digit-only pieces; `NormaliseFlatten` says these pieces are the original segments in order |
| RankConflicts.NormaliseFirst | dev_scripts/find_duplicate_taxa.py:63-67 | the first fixed segment starts with the first original segment |
| RankConflicts.NormaliseSnoc | dev_scripts/find_duplicate_taxa.py:63-67 | one more segment is glued onto the last fixed segment when it is digits only and not the first segment, and appended after it otherwise |
| RankConflicts.ExampleGlueDigits | dev_scripts/find_duplicate_taxa.py:60-67 | the lineage `A/1/B/C` is fixed to `A/1`, `B`, `C` |
| RankConflicts.ExampleLeadingDigits | dev_scripts/find_duplicate_taxa.py:60-67 | the lineage `1/A/B` keeps its digit-only first segment: `1`, `A`, `B` |
| RankConflicts.RanksInPosition | dev_scripts/find_duplicate_taxa.py:69 | a name gets rank r from a fixed path exactly when it stands at position r (counting from 1) |
| RankConflicts.WithRowEntry | dev_scripts/find_duplicate_taxa.py:69-75 | after one row, a name is present exactly when it was before or it is in the fixed path; its entry gains the new ranks, existing accessions stay and new ranks get this row's accession |
| RankConflicts.WithRowKeepsOthers | dev_scripts/find_duplicate_taxa.py:71-75 | a row leaves every name outside its path unchanged |
| RankConflicts.WithRowKeepsFirst | dev_scripts/find_duplicate_taxa.py:73-75 | an accession already stored for a rank is never overwritten |
| RankConflicts.WithRowRecords | dev_scripts/find_duplicate_taxa.py:71-75 | each segment of the path is recorded at its rank, with this row's accession when that rank is new for the name |
| RankConflicts.WithRowInvariant | dev_scripts/find_duplicate_taxa.py:71-75 | every recorded name has a non-empty set of positive ranks and exactly one accession per rank |
| RankConflicts.AccumulateInvariant | dev_scripts/find_duplicate_taxa.py:56-75 | processing any rows keeps that invariant |
| RankConflicts.AccumulateKeepsFirst | dev_scripts/find_duplicate_taxa.py:56-75 | across any number of rows the first accession for a (name, rank) pair survives |
| RankConflicts.FirstMalformed | dev_scripts/find_duplicate_taxa.py:56-58 | the index of the first row that does not unpack into three fields: all rows before it do |
| RankConflicts.CrowdedMembers | dev_scripts/find_duplicate_taxa.py:79-80 | a name passes the report filter exactly when it is listed and has more than one rank |
| RankConflicts.CrowdedAscending | dev_scripts/find_duplicate_taxa.py:79 | filtering keeps the names in ascending order |
| RankConflicts.ReportsUnique | dev_scripts/find_duplicate_taxa.py:79-84 | there is only one report meeting the report's description for a given state |
| RankConflicts.Examples | dev_scripts/find_duplicate_taxa.py:83-84 | one example accession per listed rank, the one stored for it |
| RankConflicts.Describe | dev_scripts/find_duplicate_taxa.py:80-84 | a conflict lists the name's ranks in ascending order, each once, with the accession stored for each |
| RankConflicts.Report | dev_scripts/find_duplicate_taxa.py:76-84 | the report holds exactly the names with more than one rank, in strictly ascending name order, each described as above |
| RankConflicts.ExampleFirstRow | dev_scripts/find_duplicate_taxa.py:69-75 | the row `acc1  X/Y` records `X` at rank 1 and `Y` at rank 2, each with accession `acc1` |
| RankConflicts.ExampleSecondRow | dev_scripts/find_duplicate_taxa.py:69-75 | the row `acc2  X/Y/Y` then leaves `X` and rank 2 of `Y` as they were and adds rank 3 to `Y` with accession `acc2` |
| RankConflicts.ExampleConflict | dev_scripts/find_duplicate_taxa.py:56-84 | for those two rows the only report is the one conflict `Y` at ranks 2 and 3 with accessions `acc1` and `acc2`; `X`, seen at rank 1 only, is not reported |
| RankConflicts.AccessionTsv.constructor | dev_scripts/find_duplicate_taxa.py:29-35 | the name table starts empty |
| RankConflicts.AccessionTsv.Record | dev_scripts/find_duplicate_taxa.py:72-75 | adds the rank to the name's ranks and stores the accession only if the rank had none |
| RankConflicts.AccessionTsv.RecordRow | dev_scripts/find_duplicate_taxa.py:69-75 | records every segment of a fixed path at its rank, keeping the invariant |
| RankConflicts.AccessionTsv.RecordFields | dev_scripts/find_duplicate_taxa.py:58-75 | one row: split and fix the lineage, then record it under the row's accession |
| RankConflicts.AccessionTsv.RecordRows | dev_scripts/find_duplicate_taxa.py:56-75 | records the rows before the first malformed one and reports that row's index, if any |
| RankConflicts.AccessionTsv.Call | dev_scripts/find_duplicate_taxa.py:50-84 | a malformed row stops the call with its field count after the rows before it are recorded; otherwise the result is the report of the accumulated (cached) table |
| Ordering.SortNames | dev_scripts/find_duplicate_taxa.py:79 | `sorted()` of a set of names: strictly ascending, with exactly the set's elements |
| Ordering.SortRanks | dev_scripts/find_duplicate_taxa.py:81-83 | `sorted()` of a set of ranks: strictly ascending, with exactly the set's elements |
| Ordering.BelowTotal | dev_scripts/find_duplicate_taxa.py:79 | two different names are always ordered one way or the other |
| Ordering.AscendingNamesUnique | dev_scripts/find_duplicate_taxa.py:79 | a set of names has only one strictly ascending listing |
| Ordering.AscendingRanksUnique | dev_scripts/find_duplicate_taxa.py:81-83 | a set of ranks has only one strictly ascending listing |
| IdentifierAudit.GetDuplicates | dev_scripts/analyze_tre_files.py:112-115 | the seen-set scan returns the values that occur at least twice |
| IdentifierAudit.DuplicatesPairs | dev_scripts/analyze_tre_files.py:112-115 | a value is a duplicate exactly when it occurs at two distinct positions |
| IdentifierAudit.DuplicatesEmpty | dev_scripts/analyze_tre_files.py:112-115 | no duplicates exactly when all values are distinct |
| IdentifierAudit.DuplicatesPermutation | dev_scripts/analyze_tre_files.py:112-115 | the duplicate set does not depend on the order of the values |
| IdentifierAudit.DuplicatesSnoc | dev_scripts/analyze_tre_files.py:115 | appending a value adds it to the duplicates exactly when it was already seen |
| IdentifierAudit.CountUnnamed | dev_scripts/analyze_tre_files.py:78-81 | the counting loop returns the number of unnamed nodes |
| IdentifierAudit.UnnamedCounts | dev_scripts/analyze_tre_files.py:80 | the unnamed count is the number of `None` names plus the number of empty names |
| IdentifierAudit.UnnamedBounds | dev_scripts/analyze_tre_files.py:78-81 | the count is at most the number of nodes, zero exactly when every node is named, and equal to it exactly when none is |
| IdentifierAudit.UnnamedAgree | dev_scripts/analyze_tre_files.py:75-88 | two traversals that agree on which nodes are unnamed give the same count, whatever names the two backends use |
| IdentifierAudit.CheckEmptyNames | dev_scripts/analyze_tre_files.py:75-88 | returns the unnamed counts of both traversals |
| IdentifierAudit.FirstField | dev_scripts/analyze_tre_files.py:94 | the id is the stripped text before the first comma, or the whole stripped line when there is none |
| IdentifierAudit.FirstFields | dev_scripts/analyze_tre_files.py:101-104 | one id per line, each the stripped text before the line's first comma |
| IdentifierAudit.SecondField | dev_scripts/analyze_tre_files.py:99 | a second field exists exactly when the line has a comma |
| IdentifierAudit.SecondFieldValue | dev_scripts/analyze_tre_files.py:99 | the second field is the stripped text between the first comma and the next comma or the end |
| IdentifierAudit.FirstWithout | dev_scripts/analyze_tre_files.py:97-99 | the first line without a comma: every line before it has one |
| IdentifierAudit.SecondFields | dev_scripts/analyze_tre_files.py:96-99 | the names are read exactly when every line has a comma, one per line; otherwise the error names the first line without a comma |
| IdentifierAudit.MapLineName | dev_scripts/analyze_tre_files.py:99 | the name read from a line `num,name` plus newline is `name` when `num` and `name` have no comma and `name` has no surrounding whitespace |
| IdentifierAudit.ExampleDuplicateName | dev_scripts/analyze_tre_files.py:119-126 | the map lines `1,Foo`, `2,Bar`, `3,Foo` read as the names `Foo`, `Bar`, `Foo`, and `Foo` is the one duplicate map name |
| IdentifierAudit.Audit | dev_scripts/analyze_tre_files.py:117-133 | an `IndexError` on the map names stops the audit; otherwise the report has the duplicate sets and sizes of map names, tree ids, names ids and FASTA ids, and map ids are not reported |
| CrestConvert.ParseLineMeaning | dev_scripts/convert_crest_db.py:72 | a line unpacks exactly when its stripped text has three tabs (otherwise the error carries the field count); the four fields are tab-free and joining them gives the stripped text back |
| CrestConvert.FourFields | dev_scripts/convert_crest_db.py:72 | a text splits on tabs into four fields exactly when it holds three tabs, into one more field than it has tabs; the four fields are tab-free and join back to the text |
| CrestConvert.TabLine | dev_scripts/convert_crest_db.py:72 | a line of four tab-free fields, ending in a newline and with no whitespace at its two ends, unpacks into exactly those fields |
| CrestConvert.MapKeptOk | dev_scripts/convert_crest_db.py:71-73 | the map collection succeeds exactly when every line unpacks and no name has a comma |
| CrestConvert.MapKeptError | dev_scripts/convert_crest_db.py:71-73 | a failed map collection reports the error of the first bad line |
| CrestConvert.MapKeptMembers | dev_scripts/convert_crest_db.py:71-75 | a row is collected exactly when some line unpacks into it and its fraction field is `-1` |
| CrestConvert.KeptFrom | dev_scripts/convert_crest_db.py:71-75 | the indices from `k` on of the lines the map conversion keeps, increasing, each a kept line, and every kept line from `k` on among them |
| CrestConvert.MapKeptOrder | dev_scripts/convert_crest_db.py:71-75 | the collected rows are those of the kept lines one for one and in line order: the kept lines' indices `idx` increase, include every line that unpacks with fraction `-1`, and row `j` is the row of line `idx[j]` |
| CrestConvert.MapKeptRows | dev_scripts/convert_crest_db.py:73-75 | every collected map row has `-1` as its fraction field and a comma-free name |
| CrestConvert.NamesKeptPrefix | dev_scripts/convert_crest_db.py:88-92 | the names collection is the leading rows, in order, none with fraction `-1`, and the next line is one with fraction `-1` |
| CrestConvert.NamesKeptStops | dev_scripts/convert_crest_db.py:88-91 | nothing after the first row with fraction `-1` affects the collection, not even lines that would not unpack |
| CrestConvert.NamesKeptError | dev_scripts/convert_crest_db.py:88-91 | a failed names collection reports the first line that does not unpack, all earlier rows having fractions other than `-1` |
| CrestConvert.KeyRowsOk | dev_scripts/convert_crest_db.py:76 | rows are keyed exactly when every key was computed, each row paired with its own key in order |
| CrestConvert.KeyRowsError | dev_scripts/convert_crest_db.py:76 | otherwise the error names the first row whose key failed |
| CrestConvert.SortKeysMeaning | dev_scripts/convert_crest_db.py:76 | the sort keys exist exactly when `int()` accepts every node number, each being that number's value; otherwise the error names the first number refused |
| StableSort.SortByKey | dev_scripts/convert_crest_db.py:76 | the sort's result has the same elements, ascending keys, and the elements with each key in their original order |
| StableSort.SortByKeyUnique | dev_scripts/convert_crest_db.py:76 | any ordering that is sorted by key and keeps each key's elements in their original order is the stable sort's result |
| StableSort.SortTwo | dev_scripts/convert_crest_db.py:76 | two elements with descending keys come out swapped |
| CrestConvert.CollectMap | dev_scripts/convert_crest_db.py:70-75 | the map collection loop, with its raise and continue, computes the map collection |
| CrestConvert.CollectNames | dev_scripts/convert_crest_db.py:88-92 | the names collection loop, with its break, computes the names collection |
| CrestConvert.WriteMap | dev_scripts/convert_crest_db.py:77-78 | one `num,name` line per sorted row, in sorted order |
| CrestConvert.WriteNames | dev_scripts/convert_crest_db.py:94-95 | one `num,name,frac` line per sorted row, in sorted order |
| CrestConvert.ConvertMap | dev_scripts/convert_crest_db.py:69-78 | the map `process` generator: collect, key, sort, write, or the first error |
| CrestConvert.ConvertNames | dev_scripts/convert_crest_db.py:87-95 | the names `process` generator: collect, key, sort, write, or the first error |
| CrestConvert.MapLineFields | dev_scripts/convert_crest_db.py:77-78 | a written map line splits on commas into exactly the number and the name plus newline, and the auditor's extractors read back the stripped number and name |
| CrestConvert.NamesLineFirstField | dev_scripts/convert_crest_db.py:94-95 | the first comma field of a written names line is the stripped number, even when the name has commas |
| CrestConvert.MapOutput | dev_scripts/convert_crest_db.py:76-78 | every written map line has two comma fields whose first reads as an integer, the integers never decrease, and there is one line per collected row |
| CrestConvert.NamesOutput | dev_scripts/convert_crest_db.py:93-95 | every written names line starts with an integer, the integers never decrease, and there is one line per collected row |
| CrestConvert.MapConversionOk | dev_scripts/convert_crest_db.py:71-76 | the map conversion succeeds exactly when every line unpacks with a comma-free name and every kept line's number is accepted by `int()` |
| CrestConvert.MapKeptThree | dev_scripts/convert_crest_db.py:71-75 | of three rows, the two with fraction `-1` are collected in order and the third is skipped |
| CrestConvert.ExampleConvertMap | dev_scripts/convert_crest_db.py:69-78 | the old lines `5 Foo x -1`, `3 Bar x -1` and `4 Baz x 0.5` convert to `3,Bar` and `5,Foo`: the row with fraction `0.5` is dropped and the rest are sorted by node number |
| CrestConvert.NamesConversionStops | dev_scripts/convert_crest_db.py:89-91 | the names output does not depend on anything after the first row with fraction `-1` |
| Text.SplitCount | dev_scripts/convert_crest_db.py:72 | splitting gives one more piece than there are separators |
| Text.JoinSplit | dev_scripts/find_duplicate_taxa.py:60 | joining the pieces of a split with the separator gives back the text |
| Text.SplitJoin | dev_scripts/convert_crest_db.py:77 | splitting a join of separator-free pieces gives back the pieces |
| Text.ParseIntStrip | dev_scripts/convert_crest_db.py:76 | when `int()` accepts a string it accepts the stripped string with the same value |
| Text.IntTrimIsStrip | dev_scripts/convert_crest_db.py:76 | on a string `int()` accepts, the text `int()` reads after skipping its whitespace is exactly what `strip` leaves |
| Text.ParseIntChars | dev_scripts/convert_crest_db.py:76 | a string `int()` accepts holds only the whitespace `int()` skips (space, `\t` to `\r`), digits and signs |
| Text.SeparatorRefused | dev_scripts/convert_crest_db.py:76 | a digit followed by one of the separators `\x1c` to `\x1f` is refused by `int()` |
| Text.SeparatorStripped | dev_scripts/convert_crest_db.py:76 | `strip` turns the same string into the digit alone, which `int()` accepts (`Text.OneDigit`), so `int()` of a stripped string can succeed where `int()` of the string fails |
| Text.OneDigit | dev_scripts/convert_crest_db.py:76 | `int()` of a single digit is that digit's value |

## Left out

- File input and output: opening files, `csv.reader`, gzip decompression and
  `writelines`. The lines (or rows, or raw bytes for the gzip check) are
  parameters, and what would be written is a returned sequence of lines.
  Because the `process` generators sort everything before their first
  `yield`, an error means that no line is written; the model returns only the
  error.
- Printing. The report of `AccessionTSV.__call__` is returned as a sequence of
  `Conflict` values, and the duplicate sets of the auditor as an
  `AuditReport`; the text layout of the `print` calls is not modelled.
- Tree parsing with ete3/ete4 (`tree3`, `tree4`, the `traverse()` generators)
  and FASTA parsing with Biopython (`parse_fasta_ids`). The node names (as
  `Option<string>`, `None` standing for ete4's missing name) and the FASTA
  ids are parameters.
- `convert_fasta` and the other scripts of the repository
  (`download_crest_db.py`, `compare_tree_libs.py`), the argument parsers, the
  file path properties and the `__main__` blocks. These are I/O or calls
  into third-party libraries.
- `csv.reader`'s own quoting rules. A TSV row is a sequence of
  fields as the reader delivers them.
- Text.ParseInt: ASCII only. Python's `int()` also accepts underscores
  between digits and non-ASCII decimal digits and whitespace; these are not
  modelled. `IsSpace`, `IsIntSpace` and `IsDigits` are likewise restricted
  to ASCII. Since Python 3.11, `int()` also refuses a string of more than
  4300 digits unless that limit is raised with `sys.set_int_max_str_digits`;
  the limit depends on the interpreter's configuration, so the model accepts
  digit strings of any length.
- StableSort.SortByKey: `list.sort` is a library routine, so it is modelled
  by its promise (a stable sort by key, the keys computed for all elements
  first) rather than by its algorithm or its in-place update.
- IdentifierAudit.Audit: tree ids are compared as the traversal yields them,
  so `None` and the empty name are different values, as in the code; nothing
  normalises the two backends' conventions for unnamed nodes before looking
  for duplicates.
- RankConflicts.AccessionTsv.Call: the table is a cached property, so a
  second call on the same object keeps adding to it; the model keeps the
  table as a field and states the result in terms of the state before the
  call.
- Python generators are lazy. In `parse_map_names`, for example, the lines
  before a failing line are read before the error. The model returns the
  error and what the caller would have received, without modelling the
  partial reading.
