# EC2 pricing and inventory import, modelled in Dafny

`Addons.py` is a LibreOffice add-on with two jobs:

- **ImportEC2Pricing** downloads the EC2 price list, which is CSV text.
  - It reads the five metadata lines one character at a time.
  - It checks each line's first field against the expected name (`FormatVersion`, `Disclaimer`, `Publication Date`, `Version`, `OfferCode`) and keeps the second field in an ordered dictionary.
  - It takes the next record as the table header and every later record as a data row.
  - It clears the "pricing data" sheet and writes the header in bold into row 0.
  - It writes the data rows below the header in blocks of 1000, reporting progress to a status indicator after each block.
- **ImportEC2InstanceData** builds two tables for every region.
  - The first counts running instances by (availability zone, service tag, instance type).
  - The second sums reserved instances by (availability zone, instance type).
  - Each region's tables are folded into running tables with `dict.update`.

The model has eight modules:

- `Wrappers` holds `Option` and `Result`.
- `Text` splits text into newline-terminated lines and comma-separated fields, and proves the round trips.
- `Stream` is the decoded response: a class with a read cursor, `read(1)`, and "read everything left".
- `Pricing` holds the metadata reader and validator, the header/data split, and what the whole read returns.
- `Sheet` is the in-memory host:
  - a sheet whose rows are a `map<nat, Row>`, with a log of every block write;
  - a status indicator that records the calls it receives.
- `Batching` holds the slices the sheet writer hands to the host, as the code computes them and as intended.
- `DataSheet` holds the sheet writer as written and corrected.
- `Inventory` holds the tag scan, the two frequency tables and the region merge.

Loops in the source are loops here. Each loop method is proved equal to a recursive specification function. Lemmas state what those functions mean.

**Region merge.** The merge replaces; it does not accumulate. One could expect the per-region tables to be summed into the running totals. The code calls `dict.update` instead (Addons.py:285-288), which replaces the count under a key another region already had. Dafny's right-biased `m1 + m2` is the same operation.

`Inventory.MergeLastWins` proves the last region's value wins. `Inventory.MergeSameTwice` shows two regions each reporting the same single instance merge to a count of 1, not 2. `Inventory.MergeDisjointTotal` proves nothing is lost when no key is shared.

## Model

| member | source | states |
|---|---|---|
| Text.LineEnd | Addons.py:84-87 | the character loop started at p stops just past a newline, and exactly one newline fewer lies ahead |
| Text.LineEndStep | Addons.py:85-87 | reading a non-newline leaves the stopping point unchanged; reading a newline stops right after it |
| Text.LineEndAt | Addons.py:84-87 | the loop stops at the first newline at or after p, whatever follows |
| Text.LinesEnd | Addons.py:83-87 | after k lines the cursor sits just past a newline with k fewer newlines ahead |
| Text.LinesEndPrefix | Addons.py:83-87 | the text consumed by k lines holds exactly k newlines and ends with one, so it is the shortest such prefix |
| Text.CountNewlinesSplit | Addons.py:83-87 | newline counts add up over adjacent pieces of the text |
| Text.SplitLines | Addons.py:89-90 | the lines the row splitter reads: the text cut after each newline, a last line without one kept as a line; its meaning is proved in the next three rows |
| Text.SplitLinesParts | Addons.py:90 | no line the row splitter yields holds a newline |
| Text.JoinSplitLines | Addons.py:90 | newline-terminated text split into lines and written back out is the same text |
| Text.SplitLinesCount | Addons.py:89-90 | newline-terminated text splits into as many lines as it has newlines |
| Text.SplitJoinLines | Addons.py:103 | lines without newlines, written out and split again, come back unchanged |
| Text.SplitOnParts | Addons.py:90-93 | no field holds the delimiter |
| Text.JoinSplitOn | Addons.py:90-93 | the fields of a line joined by the delimiter give the line back |
| Text.SplitJoinOn | Addons.py:90-93 | delimiter-free fields joined and split again come back unchanged |
| Text.Fields | Addons.py:90-93 | the fields of one line: none for a blank line, else the line cut at every comma; proved to rejoin to the line in FieldsRoundTrip |
| Text.Records | Addons.py:103-107 | the rows csv.reader yields for a text: one row of fields per line, in order; proved in RecordsOfLines and RecordsSplitAt |
| Text.FieldsRoundTrip | Addons.py:90-93 | a non-empty line has at least one field, and its fields joined by commas give the line back |
| Text.RecordsOfLines | Addons.py:103-108 | written-out lines parse back as one row per line, in order |
| Text.JoinLinesCount | Addons.py:83-87 | written-out lines hold exactly one newline per line |
| Text.JoinLinesSplitAt | Addons.py:83-90 | written-out lines cut after k lines are the first k lines written out, then the rest written out |
| Text.LinesEndOfLines | Addons.py:83-87 | on written-out lines, reading k lines stops exactly at the end of the k-th line |
| Text.RecordsSplitAt | Addons.py:83-108 | the text read by the metadata loop parses as the first k lines, and what remains parses as the other lines |
| Stream.CharStream.Read1 | Addons.py:86 | read(1) returns the next character and advances, or returns the empty string at the end and stays put |
| Stream.CharStream.ReadRest | Addons.py:103-107 | the csv reader consumes exactly what is left of the stream |
| Pricing.OrderedDict.Set | Addons.py:97 | d[k] = v keeps keys distinct: a new key goes last, an existing one keeps its place, and the value is replaced |
| Pricing.CheckRow | Addons.py:93-97 | a row passes exactly when its first field is the expected name and it has a second field, which is stored; a wrong first field is reported with that field |
| Pricing.ParseMetadataFrom | Addons.py:91-97 | the zip loop from pair i on: the first failing row's error, else each row[1] stored under row[0] until min(rows, 5) pairs are done; proved in ParseMetadataFromFails and ParseMetadataFromBuilds |
| Pricing.ParseMetadata | Addons.py:81-99 | the same loop started from an empty OrderedDict; its meaning is proved in ParseMetadataSucceeds and ParseMetadataFails |
| Pricing.HeaderFieldsDistinct | Addons.py:70-72 | the five expected names are pairwise distinct |
| Pricing.ParseMetadataFromFails | Addons.py:91-97 | from pair i on, the loop fails exactly when some pair fails the check, with the error of the first failing pair |
| Pricing.BuiltStep | Addons.py:97 | storing a passing pair extends the stored prefix of names and values by that pair |
| Pricing.ParseMetadataFromBuilds | Addons.py:91-99 | when every pair passes, the result holds the expected names in order, each mapped to its row's second field |
| Pricing.ParseMetadataSucceeds | Addons.py:91-99 | the check succeeds exactly when every zipped row passes, and then keys and values are as above |
| Pricing.ParseMetadataFails | Addons.py:91-99 | the check fails exactly when some zipped row fails, and then with the error of the first failing row, which for a wrong first field carries that field |
| Pricing.ValidateMetadata | Addons.py:89-99 | the validation loop returns the metadata check's result |
| Pricing.ReadLine | Addons.py:84-87 | the inner loop stops the cursor just past the next newline and buffers exactly the text it passed |
| Pricing.ReadLines | Addons.py:82-87 | five inner loops leave the cursor just past the fifth newline, with exactly that text in the buffer |
| Pricing.GetPricingMetadata | Addons.py:80-99 | the cursor ends at the header line, and the result is the metadata check on the five lines read |
| Pricing.GetPricingLines | Addons.py:101-110 | with at least one record, the first is the header and the rest are the data rows in order; with none, the call fails (StopIteration); the stream is consumed |
| Pricing.Assemble | Addons.py:101-121 | the metadata error if there is one; else the first record as header and the others as data rows in order; with no record, StopIteration |
| Pricing.PricingData | Addons.py:112-121 | the whole read on one text: the metadata check on the records of the first five lines, assembled with the records of the rest; proved in PricingDataOfLines |
| Pricing.GetPricingData | Addons.py:112-121 | both readers share one stream; the result is the metadata, then header and rows, from one text |
| Pricing.PricingDataSplitsLines | Addons.py:112-121 | on text made of lines, metadata comes from the first five lines, the header from the sixth, the data from the rest |
| Pricing.AssembleOfLines | Addons.py:91-110 | on lines, the read succeeds exactly when there is a sixth line and all five metadata lines pass; the dictionary then holds the five names in order with their values |
| Pricing.PricingDataOfLines | Addons.py:80-121 | the same, stated for the text the lines make up |
| Sheet.Placed | Addons.py:136-145 | a block laid out from row top fills rows [top, top + len) with block[r - top] and nothing else |
| Sheet.PlacedAppend | Addons.py:143-155 | two adjacent slices laid out one after the other are the longer slice laid out |
| Sheet.Sheet.ClearContents | Addons.py:131 | clearContents empties values and formatting |
| Sheet.Sheet.SetDataArray | Addons.py:133 | setDataArray places the block at its range's first row and logs the rows written |
| Sheet.Sheet.SetBold | Addons.py:134 | CharWeight = BOLD marks the row bold and changes no cell |
| Sheet.StatusIndicator.Start | Addons.py:139 | start is recorded with its caption and total |
| Sheet.StatusIndicator.SetValue | Addons.py:146 | setValue is recorded with its value |
| Sheet.StatusIndicator.End | Addons.py:157 | end is recorded |
| Batching.BatchStarts | Addons.py:140-141 | range(start, stop, 1000) is empty exactly when start >= stop |
| Batching.BatchStartsAt | Addons.py:140-141 | the k-th value of the range is start + 1000k and lies below stop |
| Batching.BatchStartsLast | Addons.py:140-141 | the range stops at the first value that would reach stop |
| Batching.FullBatches | Addons.py:143-146 | one full batch per loop iteration |
| Batching.FullBatchesAt | Addons.py:143-146 | iteration k writes rows [start_k, start_k + 1000) |
| Batching.FullBatchesSnoc | Addons.py:140-146 | each iteration appends one batch |
| Batching.TilesPartition | Addons.py:140-156 | tiling batches are pairwise disjoint and in order, their ends rise strictly, and together they cover [0, n) |
| Batching.AsWrittenBatches | Addons.py:140-156 | the slices as written: full blocks from range(0, n - 1000, 1000), then the else clause's tail from the last start + 1000 to n if any is left; none at all, standing for UnboundLocalError, when that range is empty |
| Batching.Batches | Addons.py:140-156 | the corrected slices: a block from every start of range(0, n, 1000), each ending at min(start + 1000, n) |
| Batching.AsWrittenBatchesSpec | Addons.py:140-156 | the source writes slices exactly when n > 1000; they are then [0,1000), [1000,2000), ..., ending at n, a tiling of [0, n) |
| Batching.BatchesSpec | Addons.py:140-156 | the intended slices tile [0, n) for every n > 0, and there are none for n = 0 |
| DataSheet.SpansOf | Addons.py:136-145 | one write per batch |
| DataSheet.ProgressOf | Addons.py:146-155 | one progress value per batch |
| DataSheet.ReportedBatches | Addons.py:143-155 | batch k is written to sheet rows [1 + start, 1 + end), and its end row is reported |
| DataSheet.ProgressRises | Addons.py:146-155 | for a tiling, the reported values rise strictly and the last one is n |
| DataSheet.Loaded | Addons.py:131-155 | the sheet after the header and a prefix of the data rows are written: the header laid out in row 0 and the rows from row 1; described cell by cell in LoadedSpec |
| DataSheet.LoadedSpec | Addons.py:132-145 | the loaded sheet holds the header in row 0, rows[i] in row 1 + i, and nothing elsewhere |
| DataSheet.LoadedStep | Addons.py:143-155 | writing the next batch below what is loaded extends the load by that batch |
| DataSheet.BeginLoad | Addons.py:131-139 | the sheet is cleared, the header goes to row 0 in bold, and progress starts at n |
| DataSheet.LoadBatch | Addons.py:143-146 | one batch is written below what is loaded and its end row is reported |
| DataSheet.LoadFullBatches | Addons.py:140-146 | the for loop writes rows [0, 1000 * iterations) one full batch at a time, reporting each end, and leaves start_row at the last start or unbound |
| DataSheet.UpdatePricingDataSheet | Addons.py:129-158 | as written: with n <= 1000 it fails on the unbound start_row after writing only the header; otherwise every row is loaded under the header, the writes and progress follow the batches, and end is called |
| DataSheet.UpdatePricingDataSheetCorrected | Addons.py:129-158 | with range(0, n, 1000) every row is loaded for every n, with the same writes, progress and end |
| Inventory.LastServiceTag | Addons.py:217-220 | the value of the last tag whose key is 'service', if any, as the tag loop overwrites service each time; proved in LastServiceTagSpec |
| Inventory.ServiceOf | Addons.py:216-220 | 'unknown' when tags is None or holds no service tag, else that last value |
| Inventory.LastServiceTagSpec | Addons.py:217-221 | a service is found exactly when some tag has key 'service', and it is then the value of the last such tag |
| Inventory.ServiceTag | Addons.py:217-221 | the tag scan yields that last value, or 'unknown' when there are no tags or no service tag |
| Inventory.Accumulate | Addons.py:222-223 | the table built by counts[k] = counts.get(k, 0) + amount over the entries in order; proved in AccumulateSpec and AccumulateTotal |
| Inventory.AccumulateSpec | Addons.py:222-223 | counts[key] = counts.get(key, 0) + amount builds a table holding exactly the keys entered, each with the sum of its amounts |
| Inventory.SumForAbsent | Addons.py:222-223 | a key never entered sums to 0 |
| Inventory.TotalRemove | Addons.py:222-223 | any one key's count can be taken out of a table's total first |
| Inventory.AccumulateTotal | Addons.py:222-223 | accumulating loses no amount: the table's values add up to the sum of all amounts |
| Inventory.OnesCount | Addons.py:222-223 | entering 1 per key counts occurrences, and the counts add up to the number of keys |
| Inventory.InstanceCounts | Addons.py:212-224 | the instance table: 1 entered under (az, service, type) for each instance; proved in InstanceCountsSpec |
| Inventory.InstanceCountsSpec | Addons.py:212-224 | the instance table has exactly the (az, service, type) keys of the instances, each with its number of instances, and the counts add up to the number of instances |
| Inventory.InstanceTypeCounts | Addons.py:212-224 | the instance loop builds that table |
| Inventory.ReservationEntriesSpec | Addons.py:248-253 | a reservation key is entered exactly when some reservation is for it, and its entries sum to the instance counts reserved under it |
| Inventory.ReservedCounts | Addons.py:243-254 | the reservation table: InstanceCount entered under (az, type) for each reservation; proved in ReservedCountsSpec |
| Inventory.ReservedCountsSpec | Addons.py:243-254 | the reservation table has exactly the reserved (az, type) keys, each holding the sum of InstanceCount over those reservations |
| Inventory.ReservedInstanceCounts | Addons.py:243-254 | the reservation loop builds that table |
| Inventory.Merge | Addons.py:279-288 | the dict.update fold over the regions' tables in region order, starting from an empty dict; proved in MergeKeys and MergeLastWins |
| Inventory.MergeKeys | Addons.py:279-288 | the merged table's keys are the union of all regions' keys |
| Inventory.MergeLastWins | Addons.py:285-288 | a key's merged value is that of the last region that has the key, not a sum |
| Inventory.MergeSameTwice | Addons.py:285-288 | two regions each reporting the same single instance merge to a count of 1 |
| Inventory.TotalUnion | Addons.py:285-288 | a union of tables with disjoint keys totals the sum of their totals |
| Inventory.MergeDisjointTotal | Addons.py:285-288 | when no key is shared between regions, the merged counts add up to the sum of the regions' counts |
| Inventory.RegionCountsStep | Addons.py:281-288 | one more region appends its two tables to the per-region lists |
| Inventory.MergeStep | Addons.py:285-288 | merging one more table is one more dict.update |
| Inventory.ImportInstanceData | Addons.py:279-288 | the region loop's two tables are the dict.update merges of the regions' tables, in region order |

## Left out

- Network access is not modelled. `urllib.request.urlopen` and the charset choice of `TextIOWrapper` (Addons.py:112-121) are gone: `Pricing.GetPricingData` takes the decoded text.
- The stdlib csv parser is replaced by a plain comma split of each newline-terminated line.
  - A blank line gives an empty row, as csv does.
  - A last line without a newline still counts as a line.
  - Quoting, escaped delimiters, `\r\n` line ends and newlines inside quoted fields are not modelled.
- Pricing.GetPricingMetadata: requires at least five newlines in the text. With fewer, the source's read(1) loop never ends, and a non-terminating call cannot be modelled.
- The metadata sheet writer (Addons.py:123-127) and the two count sheet writers (Addons.py:226-271) are not modelled. They write one host row per dictionary item, in Python's insertion order, which a Dafny `map` does not keep.
- UNO host calls are replaced by the in-memory `Sheet` and `StatusIndicator`. Not modelled:
  - `getCellRangeByPosition` errors, such as an empty header giving column -1, rows past the sheet's limit, or the inverted range (top row 1, bottom row 0) that Addons.py:136-137 asks for when there are no data rows; for n = 0 the model goes on to the progress start and the unbound `start_row`, where the host may already have failed;
  - size mismatches in `setDataArray`;
  - `_get_or_create_sheet` (Addons.py:58-64);
  - the desktop and frame lookups.
- DataSheet.UpdatePricingDataSheet: the unbound `start_row` is returned as an error value instead of raised. The `except` in `execute` (Addons.py:173-186) that prints it is not modelled, and neither are `print`, the closing "Row loaded" message or the timing.
- boto3 is not modelled:
  - `_get_all_regions` (Addons.py:204-210), `resource.instances.all()` and `describe_reserved_instances` become a list of per-region records of instances and reservations;
  - the reservation state filter runs server-side and is an assumption on that input;
  - a tag record without `Key` or `Value` (a KeyError in the source) cannot occur in the model.
- Process bootstrap is not modelled: `sys.path` changes, `argparse`, the launch and wait loop in `main` (Addons.py:1-21, 300-343) and the UNO registration.

## Findings

| source | as written | input that shows it | evidently intended | confidence | as-written member | corrected member |
|---|---|---|---|---|---|---|
| Addons.py:140-149 | The rows are written by `for start_row in range(0, n - 1000, 1000)`. Its `else` clause reads `start_row + 1000`. With 1 <= n <= 1000 the range is empty, so `start_row` was never bound and the call raises UnboundLocalError after the header and the progress start went out; no data row is written. With n = 1000 exactly, one full block would do | n = 1 (any n from 1 to 1000) | every data row written for every n, e.g. by `range(0, n, 1000)` with each block ending at min(start + 1000, n); the closing print at Addons.py:158 reads `end_row`, which is still unbound when n = 0, so it needs the same care | not executed | Batching.AsWrittenBatchesSpec | Batching.BatchesSpec |

`DataSheet.UpdatePricingDataSheet` is the writer as written. It returns `UnboundLocal("start_row")` exactly when `Batching.AsWrittenBatches` is `None`, which `Batching.AsWrittenBatchesSpec` proves happens exactly when n <= 1000. `DataSheet.UpdatePricingDataSheetCorrected` writes the slices of `Batching.Batches` and proves every row is loaded for every n.
