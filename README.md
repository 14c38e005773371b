# CalculateSales in Dafny

A model of the sales aggregator `jp.alhinc.calculate_sales.CalculateSales`.
Given a directory, the program:

1. reads the branch definition file `branch.lst`, one `code,name` line per branch;
2. lists the directory and keeps the regular files whose names are eight digits, one character and `rcd`;
3. sorts them by name and checks that their eight-digit serial numbers have no gap;
4. reads each sales file (a branch code line, then an amount line) and adds the amount to that branch's total;
5. writes `branch.out`, one `code,name,total` line per branch.

The program itself stops at only some failed checks: the missing or malformed definition file, and a serial-number gap. At the record checks it prints a message and carries on, or crashes with an uncaught exception. In the model, every failed check ends the run with one error.

The model has no filesystem:

- the definition file is an `Option<seq<string>>` of its lines (`None` when it does not exist);
- the directory listing is a `seq<Entry>`, each entry with its name, whether it is a regular file, and its lines;
- the summary is returned as a `seq<string>` of output lines.

The Java maps `branchNames` and `branchSales`, which the static methods mutate, are one `Registry` value here. The methods with loops build it up in local map variables.

Modules, one per stage of `main`:

- `Results`: the error kinds, `Option`/`Result`, and the console text of each error.
- `Text`: digit classes, decimal numerals, and Java's `String.split` on one character. Java's rules are kept: no separator gives the string itself; otherwise trailing empty fields are dropped.
- `Branches`: `readFile`, as the loop `ReadFile` tied to the fold `Load`, with lemmas about what loading accepts and produces.
- `SalesFiles`: the listing filter, `Collections.sort` by name (a verified insertion sort), and the serial-number check.
- `Records`: the record loop, as `AggregateSales` tied to `AccumulateFrom`, with lemmas on totals and the limit; also the source's `long` arithmetic as written (see Findings).
- `Summary`: `writeFile`. The line format, and a summary with exactly one line per branch.
- `CalculateSales`: the whole run (`Run`, specified by the function `Aggregate`) and end-to-end lemmas.
- `Scenarios`: small runs: one branch and no sales, an amount `abc`, an undeclared code, a gap, and the 10^10 boundary.

Where the code differs from what its names and comments suggest, the model follows the code:

- The sales file name pattern `^[0-9]{8}.rcd$` at line 69 has an unescaped dot, so `00000001xrcd` is a sales file, although the comment at line 67 says "8 digits.rcd". The dot matches any character except a Java line terminator.
- The registry is a `HashMap`, so the output order is unspecified. It need not be the definition file's order.
- `line.split(",")` drops trailing empty fields, so `001,Tokyo,` and `001,Tokyo,,` are accepted as `001,Tokyo`.
- A definition code that appears twice keeps the name of its last line, and its total is reset to 0.

Deliberate divergences, each also stated in a comment at the member:

- Lines 106-126 print a message and carry on. Here each of those checks ends the run: wrong line count, unknown code, a non-digit amount, a total of 10^10 or more.
- Lines 190-191 store a definition line before the shape check at line 195. Here the check comes first. A line with fewer than two fields ends loading with the format error. In the source it raises an index exception.
- `Long.parseLong` at line 116 runs before the digit check at line 118. An amount `parseLong` refuses throws there. So line 119's message is printed only for an amount that `parseLong` accepts and `^[0-9]*$` refuses: a leading `+` or `-`, or non-ASCII decimal digits such as fullwidth `１２３`. Line 122 then adds that amount's value. Here the amount must be one or more ASCII digits before it is read, and every other amount is the unknown error. That includes `abc` and the empty line.

## Model

| member | source | states |
|---|---|---|
| `Text.DecimalString` | src/jp/alhinc/calculate_sales/CalculateSales.java:240 | the text of a total is non-empty, all digits, and starts with `0` only for zero |
| `Text.DecimalRoundTrip` | src/jp/alhinc/calculate_sales/CalculateSales.java:116-118 | reading a total's text back as a numeral gives the total |
| `Text.DecimalValueBound` | src/jp/alhinc/calculate_sales/CalculateSales.java:79-80 | a k-digit numeral is below 10^k, so eight digits fit an `int` |
| `Text.SplitOn` | src/jp/alhinc/calculate_sales/CalculateSales.java:187 | splitting gives at least one field and no field contains the separator |
| `Text.JoinSplitOn` | src/jp/alhinc/calculate_sales/CalculateSales.java:187 | joining the split fields with the separator gives back the line |
| `Text.DropTrailingEmpty` | src/jp/alhinc/calculate_sales/CalculateSales.java:187 | the result is a prefix of the fields, ends in a non-empty field, and only empty fields were dropped |
| `Text.JavaSplit` | src/jp/alhinc/calculate_sales/CalculateSales.java:187 | no field of `split(",")` contains a comma |
| `Text.SplitOnWithoutSeparator` | src/jp/alhinc/calculate_sales/CalculateSales.java:187 | a string without the separator is its own only field |
| `Text.SplitOnLeadingField` | src/jp/alhinc/calculate_sales/CalculateSales.java:187 | a separator-free field followed by a separator is split off first |
| `Text.SplitOnTrailingSeparator` | src/jp/alhinc/calculate_sales/CalculateSales.java:187 | a separator at the end adds exactly one empty field |
| `Text.JavaSplitPair` | src/jp/alhinc/calculate_sales/CalculateSales.java:187 | `a,b`, with no comma in either and `b` non-empty, splits into exactly `[a, b]` |
| `Text.JavaSplitIgnoresTrailingSeparator` | src/jp/alhinc/calculate_sales/CalculateSales.java:187 | a trailing comma on a non-empty line does not change its fields |
| `Branches.ReadFile` | src/jp/alhinc/calculate_sales/CalculateSales.java:165-219 | the loop returns exactly the loader's outcome `Load(file)`: not-found, format error, or the filled maps |
| `Branches.LoadFromSucceedsIff` | src/jp/alhinc/calculate_sales/CalculateSales.java:183-198 | the lines load exactly when every line has two fields whose first is three digits |
| `Branches.LoadSucceedsIff` | src/jp/alhinc/calculate_sales/CalculateSales.java:171-198 | a missing file never loads; an existing one loads exactly when all its lines are well-formed |
| `Branches.LoadFromContents` | src/jp/alhinc/calculate_sales/CalculateSales.java:190-191 | loading keeps both maps on one key set of branch codes with zero totals. It adds exactly the declared codes, leaves undeclared ones alone, and gives each code the name on its last line |
| `Branches.LoadedRegistry` | src/jp/alhinc/calculate_sales/CalculateSales.java:183-199 | a loaded registry has one key per declared code, in both maps, every total 0 and each name from the code's last line |
| `Branches.DefinitionLineOfPair` | src/jp/alhinc/calculate_sales/CalculateSales.java:187-195 | `code,name` with a three-digit code and a non-empty, comma-free name is accepted and declares that code and name |
| `SalesFiles.ListSalesFiles` | src/jp/alhinc/calculate_sales/CalculateSales.java:65-73 | the loop keeps exactly the selected entries, in listing order |
| `SalesFiles.SelectedCounts` | src/jp/alhinc/calculate_sales/CalculateSales.java:65-73 | each sales file is kept as often as it is listed, and nothing else is kept |
| `SalesFiles.SelectedMembers` | src/jp/alhinc/calculate_sales/CalculateSales.java:68-72 | an entry is kept iff it is listed, is a regular file and its name fully matches `^[0-9]{8}.rcd$` |
| `SalesFiles.NameLeTotal` | src/jp/alhinc/calculate_sales/CalculateSales.java:75 | any two names are ordered one way or the other |
| `SalesFiles.NameLeTransitive` | src/jp/alhinc/calculate_sales/CalculateSales.java:75 | the name order is transitive |
| `SalesFiles.InsertByName` | src/jp/alhinc/calculate_sales/CalculateSales.java:75 | inserting into a sorted list gives a sorted list with one more copy of the entry |
| `SalesFiles.SortByName` | src/jp/alhinc/calculate_sales/CalculateSales.java:75 | the sorted files are in name order and are a permutation of the input |
| `SalesFiles.SortByNameKeepsEqualNames` | src/jp/alhinc/calculate_sales/CalculateSales.java:75 | entries that all share one name keep their listing order, as the stable `Collections.sort` does |
| `SalesFiles.SerialNumber` | src/jp/alhinc/calculate_sales/CalculateSales.java:79-80 | the serial number of a sales file name is below 10^8 |
| `SalesFiles.CheckSequential` | src/jp/alhinc/calculate_sales/CalculateSales.java:77-88 | the check passes iff every neighbouring pair of serial numbers differs by exactly 1 |
| `SalesFiles.ConsecutiveIffRun` | src/jp/alhinc/calculate_sales/CalculateSales.java:77-88 | consecutive files are exactly those whose k-th serial number is the first one plus k |
| `Records.AddSale` | src/jp/alhinc/calculate_sales/CalculateSales.java:105-128 | a record succeeds iff it has two lines, a declared code and a digit amount, and the new total is below 10^10. Each failure gives its error kind. Success raises only that branch's total, by the amount |
| `Records.AggregateSales` | src/jp/alhinc/calculate_sales/CalculateSales.java:91-146 | the record loop returns exactly the fold `AccumulateFrom` of one record step over the sorted files |
| `Records.AccumulateOutcome` | src/jp/alhinc/calculate_sales/CalculateSales.java:91-146 | the records succeed iff all are valid and every branch's start plus its amounts stays below 10^10. Then each total is the start plus the sum of its records' amounts, and the names are unchanged |
| `Records.TotalsBelowLimit` | src/jp/alhinc/calculate_sales/CalculateSales.java:124-126 | every total of a successful accumulation is below 10^10 and fits a `long` |
| `Records.SalesOfConcat` | src/jp/alhinc/calculate_sales/CalculateSales.java:122 | a branch's sum over two runs of files is the sum of the two sums |
| `Records.SalesOfPermutation` | src/jp/alhinc/calculate_sales/CalculateSales.java:75 | a branch's sum does not depend on the order the files are read in |
| `Records.SalesOfUnnamed` | src/jp/alhinc/calculate_sales/CalculateSales.java:122 | files that never name a branch add nothing to it |
| `Records.LongAdd` | src/jp/alhinc/calculate_sales/CalculateSales.java:122 | Java `long` addition: the result is a `long` equal to the true sum modulo 2^64 |
| `Records.AddAmountAsWritten` | src/jp/alhinc/calculate_sales/CalculateSales.java:122-126 | as written: the stored total is the `long` that equals `total + fileSale` modulo 2^64, and it is flagged iff it is at least 10^10 |
| `Records.AddAmountAsWrittenWraps` | src/jp/alhinc/calculate_sales/CalculateSales.java:122-126 | as written, total 1 plus amount 9223372036854775807 stores -9223372036854775808 unflagged, though the true sum exceeds 10^10 |
| `Records.AddAmountAsWrittenAgreesInRange` | src/jp/alhinc/calculate_sales/CalculateSales.java:122-126 | when the true sum fits a `long`, the code as written stores it and flags exactly the sums of 10^10 or more |
| `Summary.SummaryLineFields` | src/jp/alhinc/calculate_sales/CalculateSales.java:240 | a summary line splits back into code, name and total digits, and the digits read back as the total |
| `Summary.SummaryLineInjective` | src/jp/alhinc/calculate_sales/CalculateSales.java:240 | lines of different branch codes are different |
| `Summary.WriteFile` | src/jp/alhinc/calculate_sales/CalculateSales.java:230-261 | the output has one line per branch: as many lines as branches, each branch's `code,name,total` present, no other line, no line twice |
| `Summary.SummariesAgree` | src/jp/alhinc/calculate_sales/CalculateSales.java:238-242 | two summaries of one registry hold the same lines; at most the order differs |
| `CalculateSales.SalesFileOrder` | src/jp/alhinc/calculate_sales/CalculateSales.java:65-75 | the files read are regular files with sales file names, in name order, and a permutation of the kept entries |
| `CalculateSales.Aggregate` | src/jp/alhinc/calculate_sales/CalculateSales.java:50-146 | a successful run ends with a well-formed registry |
| `CalculateSales.Run` | src/jp/alhinc/calculate_sales/CalculateSales.java:38-154 | the run fails with exactly `Aggregate`'s error, or returns a summary with one line per branch of `Aggregate`'s registry |
| `CalculateSales.AggregateSucceedsIff` | src/jp/alhinc/calculate_sales/CalculateSales.java:50-146 | the run succeeds iff the definitions load, the files are consecutive, every sales file is a valid record, and every branch's sum stays below 10^10 |
| `CalculateSales.AggregateTotals` | src/jp/alhinc/calculate_sales/CalculateSales.java:122-128 | after success, the branches are exactly the loaded ones. Each total is the sum of the amounts of the sales files that name that branch |
| `CalculateSales.GapStopsBeforeRecords` | src/jp/alhinc/calculate_sales/CalculateSales.java:75-88 | any gap in the sorted serial numbers gives the not-sequential error, whatever the files contain |
| `CalculateSales.UnsoldBranchShowsZero` | src/jp/alhinc/calculate_sales/CalculateSales.java:191 | a declared branch that no sales file names has total 0, and its line is `code,name,0` |
| `Scenarios.SingleLineLoads` | src/jp/alhinc/calculate_sales/CalculateSales.java:183-199 | the one line `code,name` loads as that single branch with total 0 |
| `Scenarios.OneBranchWithoutSales` | src/jp/alhinc/calculate_sales/CalculateSales.java:238-241 | `code,name` and no sales files (such as `001,Tokyo`): the only summary is the line `code,name,0` |
| `Scenarios.SmallSerial` | src/jp/alhinc/calculate_sales/CalculateSales.java:69-80 | `0000000d.rcd` is a sales file name with serial number d |
| `Scenarios.OneFileOrder` | src/jp/alhinc/calculate_sales/CalculateSales.java:65-75 | a single sales file is exactly what the run reads |
| `Scenarios.AmountNotNumeric` | src/jp/alhinc/calculate_sales/CalculateSales.java:118-120 | an amount line `abc` ends the run with the unknown error |
| `Scenarios.UndeclaredBranch` | src/jp/alhinc/calculate_sales/CalculateSales.java:111-113 | a record for an undeclared code ends the run with that file's invalid-code error |
| `Scenarios.TwoFiles` | src/jp/alhinc/calculate_sales/CalculateSales.java:75 | two sales files are both read, once each, in one order or the other |
| `Scenarios.SerialGap` | src/jp/alhinc/calculate_sales/CalculateSales.java:77-88 | two sales files whose serial numbers are two apart end the run with the not-sequential error |
| `Scenarios.SerialGapExample` | src/jp/alhinc/calculate_sales/CalculateSales.java:77-88 | `00000001.rcd` and `00000003.rcd` end the run with the not-sequential error, whatever they hold |
| `Scenarios.LimitRefused` | src/jp/alhinc/calculate_sales/CalculateSales.java:124-126 | a branch's first amount, if 10000000000 or more, ends the run with the too-large error |
| `Scenarios.LimitAccepted` | src/jp/alhinc/calculate_sales/CalculateSales.java:122-128 | a branch's first amount below 10000000000 (up to 9999999999) becomes its total, and the run succeeds |

## Findings

| source | as written | input that shows it | evidently intended | confidence | as-written member | corrected member |
|---|---|---|---|---|---|---|
| src/jp/alhinc/calculate_sales/CalculateSales.java:122-126 | The new total is the `long` sum of the old total and the parsed amount. The 10-digit test runs on that sum after it may have wrapped past 2^63. | A branch whose total is already 1 (from an earlier file), then a file whose amount line is `9223372036854775807`, which `Long.parseLong` accepts. The sum wraps to -9223372036854775808, is not flagged, and is stored and written. | Any total of 10^10 or more is refused. | high; not executed | `Records.AddAmountAsWrittenWraps` | `Records.TotalsBelowLimit` |

The model adds amounts as unbounded naturals (`Records.AddSale`). Its totals are proved below 10^10, and so within `long` range.

## Left out

- File system and streams. `File`, `listFiles`, `exists`, the readers and writers, `readLine`/`newLine` and the `finally` close handling are not modelled. File contents come in as lines, and the summary goes out as lines.
- I/O failures. The `IOException` handlers that print the unknown error during reading, writing or closing are not modelled, because the inputs are given and cannot fail to read.
- Console output. Each message is an `Error` constructor; `Results.Message` gives its text.
- The argument count check at line 41. It prints but does not stop, and `args[0]` is then read anyway; the directory is always given here.
- The runtime exceptions of the source. An index exception at line 111 or 116 follows a wrong line count that lines 106-108 only print. Line 122 throws on a code that lines 111-113 only print. Line 190 throws on a line with fewer than two fields (one field, or none for a line of commas only such as `,`), before the shape check at line 195. Every check here is terminal, so those states never arise.
- In the source, any amount that `Long.parseLong` refuses at line 116 ends the run with an uncaught `NumberFormatException`. That includes a non-numeric amount such as `abc`, the empty line, and digits too long for a `long`. So the message of line 119 is never printed for such a record. Here a non-digit amount is the unknown error (`Scenarios.AmountNotNumeric`), and an overlong digit string is read as a natural and refused by the 10^10 limit.
- `Summary.WriteFile`: does not state the order of the lines, because `HashMap` key order is unspecified. `Summary.SummariesAgree` shows two runs give the same lines; byte-identical order is not claimed.
- `SalesFiles.SortByName`: compares characters by code point, while `String.compareTo` compares UTF-16 units. They differ only for a character outside the Basic Multilingual Plane at position 9 of a sales file name. The sort is insertion sort, not Java's merge sort; it is stable like Java's (`SalesFiles.SortByNameKeepsEqualNames`), and a directory's names are distinct anyway.
- The platform line terminator written by `newLine`. Output lines are returned without terminators.
