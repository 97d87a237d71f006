# fgpoliciestocsv converters, modelled in Dafny

fgpoliciestocsv turns a FortiGate configuration dump into `;`-separated CSV.
This project models two of its converters:

- `fgviptocsv.py` reads the `config firewall vip` block.
- `fgaddressestocsv.py` reads the `config firewall address` block. It also
  splits every `subnet` value into an address and a mask.

Both converters have the same two steps:

- `parse` scans the file line by line. Each line is stripped of surrounding
  whitespace and matched against five case-insensitive patterns: block entry,
  `edit "<name>"`, `set <key> <value>`, `next` and `end`. Inside the block,
  an edit line and set lines fill in a dictionary. A `next` line appends that
  dictionary to the record list and starts a new one. Every column name is
  recorded in first-seen order.
- `generate_csv` writes a header row with the column names, unless it is
  skipped. It then writes one row per record, with one cell per column and an
  empty cell for a key the record lacks. An empty row may follow each data
  row.

Modules, one concern each:

- `Text` (text.dfy): the string primitives the converters rely on. These are
  `str.strip()`, the `\s` class, ASCII case folding for `re.IGNORECASE`,
  quote removal with `re.sub('["]', '', s)`, and `str.split(' ')` with its
  inverse `join`.
- `Patterns` (patterns.dfy): the five regular expressions, each a predicate
  or a function returning its groups. The two extractors, for `edit` and
  `set`, come with a shape predicate for the lines they accept, a soundness
  lemma and a completeness lemma. The block-entry pattern has a completeness
  lemma. Further lemmas show that the patterns exclude one another and that
  matching ignores case.
- `AddressFields` (address_fields.dfy): `divide_subnet` and the address-only
  columns.
- `Scanner` (scanner.dfy): `parse` for both converters, parameterised by
  `Variant = Vip | Address`.
  - `StepOn` is the effect of one classified line and `Run` is the loop over
    the lines. Both are pure specification functions.
  - `Parse`, `ScanLine` and `ScanSetting` are the source's loop and its body
    as methods, proved to compute them.
  - An exception (`divide_subnet`'s IndexError) is a `Failure`.
- `ScannerProperties` (scanner_properties.dfy): what `parse` promises.
- `CsvWriter` (csv_writer.dfy): `generate_csv` as a method with the source's
  two nested loops, proved against the function `Generated`, plus the layout
  of its output and reading a row back.
- `Scenarios` (scenarios.dfy): one address object run end to end, and the
  sources' `parse` as written.

The two sources bind their compiled patterns to the names
`p_entering_service_block`, `p_service_name`, `p_service_setting`,
`p_service_next` and `p_exiting_service_block`. The loop, however, uses other
names, such as `p_entering_vip_block` and `p_address_set`, which are never
bound. The model gives each use the pattern it evidently stands for (see
Findings).

The address converter registers and splits unconditionally. Its
`--split-ip-subnet` option is declared but never read, so the model follows
the code.

## Model

| member | source | states |
|---|---|---|
| Text.StripSpec | fgviptocsv.py:88 | The stripped line is the middle of the line, with only whitespace before and after it and none at its own ends |
| Text.StripOf | fgaddressestocsv.py:79 | Stripping whitespace around a core without outer whitespace gives exactly that core |
| Text.StripIdempotent | fgviptocsv.py:88 | A second strip changes nothing, so `lstrip().rstrip().strip()` is one strip |
| Text.StrippedHasNoFinalNewline | fgviptocsv.py:88 | A stripped line never ends with a newline, so each pattern's `$` can only match at the end of the text |
| Text.RemoveQuotes | fgviptocsv.py:109 | No double quote is left, the result is no longer than the input, and a quote-free input is unchanged |
| Text.RemoveQuotesKeepsOthers | fgviptocsv.py:109 | Quotes are deleted, not replaced: the length drops by exactly the number of quotes, and every other character is kept as many times as it occurs |
| Text.RemoveQuotesAppend | fgaddressestocsv.py:101 | Removing quotes distributes over concatenation |
| Text.RemoveQuotesIdempotent | fgaddressestocsv.py:101 | Removing quotes twice is removing them once |
| Text.SplitOnSpec | fgaddressestocsv.py:56 | `split(' ')` yields one piece more than there are spaces, and no piece holds a space |
| Text.JoinSplitOn | fgaddressestocsv.py:56 | Joining the pieces with the separator gives back the field |
| Text.SplitOnJoin | fgaddressestocsv.py:56 | Splitting a join of separator-free pieces gives back the pieces |
| Text.SplitOnHead | fgaddressestocsv.py:56 | The first piece is the text before the first separator, and the remaining pieces are the split of what follows it |
| Patterns.AfterKeywordOf | fgviptocsv.py:57 | `^\s*<keyword>` accepts any whitespace followed by the keyword in any case, leaving the rest of the line |
| Patterns.AfterKeywordSound | fgviptocsv.py:60 | Whatever `^\s*<keyword>` accepts is whitespace, then the keyword in some case, then the rest |
| Patterns.QuotedNameOf | fgviptocsv.py:57 | `\s+"(.*)"$` captures the text between the opening and the closing quote |
| Patterns.QuotedNameSound | fgviptocsv.py:57 | A capture comes from whitespace, a quote, newline-free text and a final quote |
| Patterns.EditNameSound | fgviptocsv.py:57 | Every name the edit pattern captures comes from a line of the edit shape |
| Patterns.EditNameComplete | fgaddressestocsv.py:50 | Every line of the edit shape is matched, and its name runs from the first quote to the last one |
| Patterns.SetFieldsComplete | fgaddressestocsv.py:53 | Every line of the set shape is matched with that key and value; the second `\s+` takes all the whitespace after the key |
| Patterns.SetFieldsSound | fgviptocsv.py:60 | Every key and value the set pattern captures come from a line of the set shape |
| Patterns.KeyAndValueSound | fgviptocsv.py:60 | After the keyword, the set pattern's text splits into whitespace, a non-empty whitespace-free key, whitespace and a newline-free value |
| Patterns.BlockEntryComplete | fgviptocsv.py:48 | Block entry accepts the keyword in any case after any leading whitespace |
| Patterns.ClassificationIgnoresCase | fgaddressestocsv.py:41-47 | Lines equal up to case are classified alike as block entry, `next` or `end` |
| Patterns.EditLineLength | fgviptocsv.py:57 | An edit line is at least seven characters long |
| Patterns.SetLineLength | fgviptocsv.py:60 | A set line is at least six characters long |
| Patterns.EditExcludesSet | fgaddressestocsv.py:87-93 | No line is both an edit line and a set line |
| Patterns.NextExcludesOthers | fgaddressestocsv.py:110 | A `next` line is neither an edit, a set nor an `end` line |
| Patterns.EndExcludesOthers | fgaddressestocsv.py:115 | An `end` line is neither an edit, a set nor a `next` line |
| Patterns.EntryExcludesOthers | fgaddressestocsv.py:82 | A block-entry line is nothing else |
| AddressFields.DivideSubnetSpec | fgaddressestocsv.py:55-57 | `divide_subnet` succeeds exactly when the field holds a space; the address is the text before the first space and the mask the text up to the next space or the end |
| AddressFields.DivideSubnetOf | fgaddressestocsv.py:55-57 | Two space-free pieces joined by a space split back into the same two |
| AddressFields.DivideSubnetOfLonger | fgaddressestocsv.py:55-57 | Whatever follows a second space is dropped |
| AddressFields.DivideSubnetExample | fgaddressestocsv.py:55-57 | `10.0.0.1 255.255.255.0` splits into `10.0.0.1` and `255.255.255.0` |
| AddressFields.DivideSubnetDropsThirdPiece | fgaddressestocsv.py:55-57 | `a b c` splits into `a` and `b` |
| AddressFields.DivideSubnetDoubleSpace | fgaddressestocsv.py:55-57 | Two consecutive spaces give an empty mask |
| AddressFields.DivideSubnetWithoutSpaceFails | fgaddressestocsv.py:55-57 | A CIDR value such as `10.0.0.0/24` holds no space, so `divide_subnet` raises |
| Scanner.RegisterSpec | fgviptocsv.py:99 | After registration the column is present, no other column is added, the old list is a prefix, and a duplicate-free list stays duplicate-free |
| Scanner.SetColumnsSpec | fgaddressestocsv.py:95-97 | A set line registers its key and, in the address converter, `ip_addr` and `subnet_mask`; nothing else, keeping the old list as a prefix and no duplicates |
| Scanner.StoreSettingFrame | fgaddressestocsv.py:93-107 | A set line changes only the record being filled in and the column list |
| Scanner.StoreKeepsWellFormed | fgviptocsv.py:98-115 | Storing values under registered columns keeps the invariant: no duplicate column, every record key is a column |
| Scanner.ApplyEditKeepsWellFormed | fgviptocsv.py:96-99 | An edit line keeps the invariant |
| Scanner.StoreSettingKeepsWellFormed | fgaddressestocsv.py:93-107 | A set line keeps the invariant, including the split subnet columns |
| Scanner.ApplyNextKeepsWellFormed | fgviptocsv.py:118-120 | A `next` line keeps the invariant |
| Scanner.StepKeepsWellFormed | fgviptocsv.py:87-124 | One iteration of the loop keeps the invariant |
| Scanner.RunKeepsWellFormed | fgaddressestocsv.py:78-116 | The whole loop keeps the invariant |
| Scanner.StartIsWellFormed | fgviptocsv.py:79-84 | The initial state satisfies the invariant |
| Scanner.ScanSetting | fgaddressestocsv.py:93-107 | The set branch of the loop body computes StoreSetting: it registers columns, strips the value and removes its quotes, splits a `subnet` value, and stores the value or raises |
| Scanner.ScanLine | fgviptocsv.py:91-124 | The loop body on one classified line computes StepOn: it sets the flag, applies the edit, set and next rules in order on the state the previous rule left, then clears the flag on `end` |
| Scanner.Parse | fgviptocsv.py:69-126 | The loop over the lines returns Run's records and columns, or the first exception; the columns have no duplicates and cover every key of every record (the same loop is at fgaddressestocsv.py:60-118) |
| Scanner.RunSnoc | fgaddressestocsv.py:78 | The loop over one more line is one more iteration |
| Scanner.RunExtends | fgviptocsv.py:87 | Parse's loop invariant carried over one line |
| Scanner.FailureEndsParse | fgaddressestocsv.py:103 | Once a prefix raises, `parse` raises that exception |
| Scanner.RunViewsConcat | fgviptocsv.py:87-124 | Scanning a concatenation is scanning the second part from where the first left off |
| Scanner.RunConcat | fgaddressestocsv.py:78-116 | The same, for input lines |
| Scanner.FailureIsFinal | fgaddressestocsv.py:103 | Nothing after a raising line can undo the exception |
| Scanner.ParseAsWritten | fgviptocsv.py:91 | `parse` as written returns empty lists on an empty file and raises NameError on the first line of any other input |
| ScannerProperties.ViewKinds | fgviptocsv.py:91-123 | A stripped line is of at most one kind among entry, edit, set, next and end |
| ScannerProperties.ViewOfUnpadded | fgviptocsv.py:88 | A line with no surrounding whitespace is classified as it stands |
| ScannerProperties.EntryView | fgviptocsv.py:91 | A block-entry line is classified as that and nothing else |
| ScannerProperties.EditView | fgviptocsv.py:96 | An edit line is classified as an edit with its name and nothing else |
| ScannerProperties.SetView | fgviptocsv.py:102 | A set line is classified as a set with its key and value and nothing else |
| ScannerProperties.NextView | fgviptocsv.py:118 | A `next` line is classified as that and nothing else |
| ScannerProperties.EndView | fgviptocsv.py:123 | An `end` line is classified as that and nothing else |
| ScannerProperties.OutsideLineIgnored | fgaddressestocsv.py:82-86 | Outside the block, a line that does not enter it changes nothing |
| ScannerProperties.EntryLineOn | fgviptocsv.py:91-92 | A classified block-entry line only sets the flag |
| ScannerProperties.EntryLine | fgaddressestocsv.py:82-83 | A block-entry line only sets the flag, inside the block or not |
| ScannerProperties.EndLineOn | fgviptocsv.py:123-124 | A classified `end` line only clears the flag |
| ScannerProperties.EndLine | fgaddressestocsv.py:115-116 | An `end` line, inside the block or not, only clears the flag |
| ScannerProperties.EditLineOn | fgviptocsv.py:96-99 | A classified edit line stores the name under `name` and registers that column |
| ScannerProperties.EditLine | fgaddressestocsv.py:87-90 | In the block, an edit line stores its captured name under `name` and registers that column |
| ScannerProperties.SetLineOn | fgviptocsv.py:102-115 | A classified set line does what StoreSetting says |
| ScannerProperties.SetLine | fgaddressestocsv.py:93-107 | In the block, a set line does what StoreSetting says and nothing more |
| ScannerProperties.NextLineOn | fgviptocsv.py:118-120 | A classified `next` line appends the record and starts an empty one |
| ScannerProperties.NextLine | fgaddressestocsv.py:110-112 | In the block, `next` appends the record, with or without a name, and starts an empty one |
| ScannerProperties.UnquotedEditStripped | fgviptocsv.py:88 | `edit 5` is unchanged by stripping |
| ScannerProperties.UnquotedEditNoCapture | fgviptocsv.py:57 | Neither the edit nor the set pattern matches `edit 5` |
| ScannerProperties.UnquotedEditView | fgviptocsv.py:91-123 | `edit 5` is of no kind at all |
| ScannerProperties.UnquotedEditIgnored | fgviptocsv.py:96 | An unquoted `edit 5` in the block changes nothing |
| ScannerProperties.SetRegistersColumns | fgaddressestocsv.py:95-97 | After a set line the old columns, its key and, for addresses, `ip_addr` and `subnet_mask` are present, and nothing else was added |
| ScannerProperties.SetStoresValue | fgviptocsv.py:108-115 | The stored value is the raw group, stripped, with every double quote removed; no other entry of the record changes |
| ScannerProperties.SubnetSplit | fgaddressestocsv.py:102-107 | A `subnet` value gives exactly the old record updated with the address, the mask and the whole value: every earlier entry, such as `name`, is kept and no other changes, and the records and the flag are untouched; a value without a space raises |
| ScannerProperties.SetOverwrites | fgaddressestocsv.py:107 | A set line leaves its own value under its key, whatever was there, so a later set of the same key overwrites an earlier one |
| ScannerProperties.VipNeverFails | fgviptocsv.py:69-126 | The VIP converter never raises |
| ScannerProperties.AddressFailureCause | fgaddressestocsv.py:102-103 | The address converter raises only on a `subnet` value that holds no space |
| ScannerProperties.NoEntryNoChange | fgaddressestocsv.py:82-86 | Outside the block, lines that do not enter it change nothing |
| ScannerProperties.PreambleIgnored | fgviptocsv.py:91-95 | Lines before the first block-entry line change neither the records nor the columns |
| ScannerProperties.EndClearsFlag | fgviptocsv.py:123-124 | Whatever came before, the scanner is outside the block after an `end` line |
| ScannerProperties.AfterEndIgnored | fgaddressestocsv.py:115-116 | After `end`, lines up to the next block-entry line change nothing |
| ScannerProperties.RunOnlyAppends | fgviptocsv.py:99-119 | The column list and the record list only grow by appending |
| ScannerProperties.StepOnlyAppends | fgaddressestocsv.py:90-111 | One iteration only appends columns and records |
| ScannerProperties.PrefixOnlyGrows | fgviptocsv.py:99-119 | If the whole input scans without an exception, so does any prefix, and its columns and records are prefixes of the whole input's |
| ScannerProperties.KeysGrowByAppending | fgaddressestocsv.py:90-111 | The columns and records after any prefix of the input are prefixes of the final ones |
| ScannerProperties.RunCounts | fgviptocsv.py:91-124 | The flag follows the entry and `end` lines, and one record was committed per `next` line met while the flag was set |
| ScannerProperties.RecordCount | fgaddressestocsv.py:110-112 | `parse` returns exactly one record per in-block `next` line |
| ScannerProperties.TrailingRecordDropped | fgviptocsv.py:118-126 | A record that no in-block `next` line follows is not returned |
| ScannerProperties.ParseWellFormed | fgaddressestocsv.py:118 | The returned columns have no duplicates and cover every key of every record |
| ScannerProperties.DedupSpec | fgviptocsv.py:99 | The first-occurrence list holds every name of its input and only those, each once |
| ScannerProperties.DedupSnoc | fgviptocsv.py:104 | Registering a name, only if absent, extends the first-occurrence list by that name |
| ScannerProperties.DedupAppend | fgaddressestocsv.py:95-97 | Registering several names in turn gives the first-occurrence list of the longer sequence |
| ScannerProperties.RegisterAllAppend | fgaddressestocsv.py:95-97 | Registering two lists of names one after the other is registering their concatenation |
| ScannerProperties.EditRegisters | fgviptocsv.py:96-99 | An edit line registers the column `name` |
| ScannerProperties.SetRegisters | fgaddressestocsv.py:93-97 | A set line registers its key, then `ip_addr`, then `subnet_mask` for addresses, each only if absent |
| ScannerProperties.StepRegisters | fgaddressestocsv.py:82-116 | One iteration registers exactly the names of its edit and set parts when the flag is set, and none outside the block |
| ScannerProperties.RunKeys | fgaddressestocsv.py:82-116 | After any prefix of the lines, the columns are the names registered by the in-block edit and set lines, in order of first occurrence |
| ScannerProperties.ParseKeys | fgviptocsv.py:91-126 | The columns `parse` returns are exactly the registered names, duplicates dropped, in first-seen order |
| CsvWriter.GenerateCsv | fgviptocsv.py:129-156 | The nested loops write nothing when there are no records or no columns; otherwise they write the optional header, then one row per record in order, each followed by an empty row when `newline` is set (the same code is at fgaddressestocsv.py:121-148) |
| CsvWriter.DataRowCells | fgviptocsv.py:144-149 | A data row has one cell per column: the record's value, or an empty cell for a key the record lacks |
| CsvWriter.BodyLayout | fgaddressestocsv.py:134-144 | The rows after the header are each record's data row in record order, with an empty row after each exactly when `newline` is set, and nothing else |
| CsvWriter.CsvLayout | fgviptocsv.py:135-152 | Nothing is written exactly when there are no records or no columns; otherwise the header is `keys` unless skipped, row count, positions and widths are as above, and empty rows sit where `newline` puts them |
| CsvWriter.BlankRowsOnlyWithNewline | fgaddressestocsv.py:131-144 | Without `newline` every written row has one cell per column, so none is empty |
| CsvWriter.ReadBackRow | fgviptocsv.py:142-151 | Reading a data row back against the header gives the record's non-empty values for the columns |
| CsvWriter.RowRoundTrip | fgaddressestocsv.py:134-144 | A record whose keys are all columns and whose values are all non-empty reads back from its row unchanged |
| Scenarios.EntryLineView | fgaddressestocsv.py:41 | `config firewall address` is a block-entry line and nothing else |
| Scenarios.EditLineView | fgaddressestocsv.py:50 | `edit "<name>"` is an edit line with that name and nothing else |
| Scenarios.SetLineView | fgaddressestocsv.py:53 | `set <key> <value>` is a set line with that key and value and nothing else |
| Scenarios.NextLineView | fgaddressestocsv.py:47 | `next` is a `next` line and nothing else |
| Scenarios.EndLineView | fgaddressestocsv.py:44 | `end` is an `end` line and nothing else |
| Scenarios.PlainSubnetValue | fgaddressestocsv.py:100-103 | A plain `<ip> <mask>` value survives stripping and quote removal and splits into ip and mask |
| Scenarios.AddressColumnsRegistered | fgaddressestocsv.py:90-97 | After `name`, a `subnet` line registers `subnet`, `ip_addr` and `subnet_mask` in that order |
| Scenarios.AddressSubnet | fgaddressestocsv.py:93-107 | The object's subnet line fills in the whole record and the four columns |
| Scenarios.AddressStepOn | fgaddressestocsv.py:82-116 | Each of the object's classified lines moves the scanner to the next expected state |
| Scenarios.SubnetLineView | fgaddressestocsv.py:93 | The object's subnet line is a set line of `subnet` with the whole value |
| Scenarios.AddressLineView | fgaddressestocsv.py:79-115 | Each of the object's five lines is classified as expected |
| Scenarios.AddressPrefix | fgaddressestocsv.py:78-116 | After the first k lines of the object the scanner is in the k-th expected state |
| Scenarios.AddressObject | fgaddressestocsv.py:60-118 | One address object yields one record with the name, the subnet value and its two halves, and the columns `name`, `subnet`, `ip_addr`, `subnet_mask` |
| Scenarios.AddressObjectCsv | fgaddressestocsv.py:121-148 | That record is written as the header row and one data row |
| Scenarios.Srv1Example | fgaddressestocsv.py:60-148 | Object SRV1 with subnet `10.0.0.1 255.255.255.0` gives that record and the rows `name;subnet;ip_addr;subnet_mask` and `SRV1;10.0.0.1 255.255.255.0;10.0.0.1;255.255.255.0` |
| Scenarios.UndefinedPatternNames | fgaddressestocsv.py:82 | `parse` as written raises NameError on every non-empty input where the intended scanner returns records |

## Left out

- Option parsing and `main` (fgviptocsv.py:159-181, fgaddressestocsv.py:150-172): command-line handling and file names only. `parse` takes the file's lines and `generate_csv` returns its rows.
- File I/O: opening, reading and closing the files. A line is the text the file iteration yields, its terminator included. Stripping removes the terminator.
- The `csv` module's byte encoding is not part of this model: the `;` delimiter, minimal quoting of cells holding `;`, `"` or line breaks, and the `\r\n` terminator. The output is the list of rows handed to `writerow`, and an empty row stands for `writerow('')`.
- The regular-expression engine: each pattern is modelled by a function that returns its groups. Its greedy choices are written out and proved against a shape predicate.
- Python 2 byte strings are modelled as `string`. `\s` and `strip()` use the six ASCII whitespace characters, and case folding is ASCII only.
- The commented-out code in fgviptocsv.py (lines 63-65, 105-106 and 110-113) is dead and is not modelled.
- The address converter's `--split-ip-subnet` option (fgaddressestocsv.py:35) is never read: the split is unconditional, as in the code.
- Dictionaries are modelled as values. An appended record is never changed afterwards, because `address_elem` is rebound to a new dictionary after each `next`, so no aliasing is lost.

## Findings

| source | as written | input that shows it | evidently intended | confidence | as-written member | corrected member |
|---|---|---|---|---|---|---|
| fgviptocsv.py:91 | the loop tests `p_entering_vip_block`, `p_vip_name`, `p_vip_setting`, `p_vip_next` and `p_exiting_vip_block`, none of which is ever bound, so the first line raises NameError | any non-empty file, e.g. the single line `config firewall vip` | the patterns compiled at fgviptocsv.py:48-60 under the names `p_entering_service_block`, `p_service_name`, `p_service_setting`, `p_service_next` and `p_exiting_service_block` | not executed | Scanner.ParseAsWritten | Scanner.Parse |
| fgaddressestocsv.py:82 | the loop tests `p_entering_address_block`, `p_address_name`, `p_address_set`, `p_address_next` and `p_exiting_address_block`, none of which is ever bound, so the first line raises NameError | the five-line SRV1 object of Scenarios.Srv1Example | the patterns compiled at fgaddressestocsv.py:41-53 under the names `p_entering_service_block`, `p_service_name`, `p_service_setting`, `p_service_next` and `p_exiting_service_block` | not executed | Scenarios.UndefinedPatternNames | Scenarios.AddressObject |
