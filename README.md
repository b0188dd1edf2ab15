# FPChecker runtime core in Dafny

FPChecker instruments the floating-point instructions of a program. After each
instruction the program calls the runtime with the result `x`, the operands
`y` and `z`, the instruction code and the source location. This project models
the parts of that runtime which decide what to record and what to report:

- **Host event tests** (`host_events.dfy`, module `HostEvents`). A `float` or
  `double` is its IEEE 754 binary32/binary64 bit pattern (`bv32`/`bv64`). The
  model covers:
  - the exponent and mantissa extractors;
  - the ten event tests: ±infinity, NaN, division by zero, cancellation,
    comparison, underflow, latent ±infinity and latent underflow;
  - the host danger zone (5 %), whose thresholds are the integer constants
    244/12 (FP32) and 1946/102 (FP64);
  - the record of flags that one instruction produces.
- **Trapping** (`host_trap.dfy`, module `HostTrap`). `_FPC_CHECK_AND_TRAP`
  selects a location through `FPC_TRAP_FILE` (a suffix) and `FPC_TRAP_LINE`
  (read with `atoi`). It then traps on every enabled kind in a fixed order:
  - the environment is a map from variable name to value;
  - a trap is a notice appended to an output sequence;
  - `SIGABRT` ends the sequence; with `FPC_TRAPS_HANG` the routine goes on.
- **Aggregation table** (`fpc_hashtable.dfy`, module `FpcHashtable`). This is
  the fixed-size bucket array keyed by (file-name pointer, line). A record
  holds ten counters:
  - a bucket is an array element holding the chain as a sequence of record
    values;
  - `_FPC_HT_SET_` either adds into the matching record or appends a copy;
  - the class invariant is that every key appears at most once, every record
    sits in its hash bucket, and `n` is the number of records.
- **Report** (`fpc_report.dfy`, module `FpcReport`). `_FPC_PRINT_HASH_TABLE_`
  writes the program-input string and the JSON array of record objects. The
  model is a pure function from the buckets to the output lines. The printing
  loops are proved to produce exactly those lines.
- **Host entry points** (`host_runtime.dfy`, module `HostRuntime`). A
  `Runtime` object holds the global table, the program arguments and the
  environment. It models initialisation, `_FPC_FP32_CHECK_`,
  `_FPC_FP64_CHECK_` and the final report.
- **Device helpers** (`device_strings.dfy`, `device_check.dfy`). These are:
  - the bounded C-string routines `_FPC_LEN_`, `_FPC_CPY_` and `_FPC_CAT_` on
    `char` arrays;
  - the 80-column report header built with them;
  - the device danger zone (10 %: 231/25 and 1844/204);
  - the priority chain of `_FPC_FP32/64_CHECK_OPERATION_`;
  - the error-array sweep of `_FPC_PRINT_ERRORS_`.
- **Build-command rewriting** (`py_strings.dfy`, `fpchecker_tool.dfy`). The
  Python string operations the tool relies on come first. On top of them sit:
  - `CompilationCommand.__init__`;
  - `changeNameOfExecutable`;
  - `getCodeFileName`;
  - `replaceFileName`.
  Exceptions become `Failure` values.

`wrappers.dfy` holds `Option`/`Result`, and `decimal.dfy` holds the `%lu`/`%d`
rendering of numbers and its inverse.

Where the specification and the code disagree, the model follows the code:

- The host latent-infinity test (src/Runtime_cpu.h:166-175) accepts
  infinities and NaNs too, since it only compares the exponent field. So a NaN
  result is an (unsigned) latent infinity. It is neither signed variant,
  because `x > 0` and `x < 0` are false for it.
- Device and host use different danger-zone fractions: 10 % in src/Runtime.h:57
  and 5 % in src/Runtime_cpu.h:31. Both are modelled as written.

## Model

| member | source | states |
|---|---|---|
| HostEvents.Exponent32 | src/Runtime_cpu.h:79-85 | the result is bits 23-30 of the pattern, so it is below 256 |
| HostEvents.Mantissa32 | src/Runtime_cpu.h:87-93 | the result is the low 23 bits of the pattern |
| HostEvents.IsInf32 | src/Runtime_cpu.h:95-101 | true exactly for the two infinity patterns 0x7F800000 and 0xFF800000 |
| HostEvents.IsInfinityPos32 | src/Runtime_cpu.h:103-108 | true exactly for +infinity |
| HostEvents.IsInfinityNeg32 | src/Runtime_cpu.h:110-115 | true exactly for -infinity |
| HostEvents.IsNaN32 | src/Runtime_cpu.h:117-121 | true exactly when the magnitude is above that of infinity |
| HostEvents.IsDivisionZero32 | src/Runtime_cpu.h:123-130 | true iff op is a division, the dividend is not ±0 (NaN counts) and the divisor is ±0; so 0/0 is not flagged |
| HostEvents.IsCancellation32 | src/Runtime_cpu.h:137-147 | true iff op is add or sub and an operand's exponent field exceeds the result's by more than 30 (signed arithmetic); never for mul, div, cmp |
| HostEvents.IsSubnormal32 | src/Runtime_cpu.h:156-164 | underflow is true exactly for non-zero magnitudes below 2^-126 (zero exponent field) |
| HostEvents.IsLatentInfinity32 | src/Runtime_cpu.h:166-175 | true exactly for magnitudes with exponent field >= 244, infinities and NaNs included |
| HostEvents.IsLatentInfinityPos32 | src/Runtime_cpu.h:177-183 | true exactly for the patterns from 0x7A000000 up to +infinity |
| HostEvents.IsLatentInfinityNeg32 | src/Runtime_cpu.h:185-191 | true exactly for the patterns from 0xFA000000 up to -infinity |
| HostEvents.IsLatentSubnormal32 | src/Runtime_cpu.h:193-202 | true exactly for non-zero magnitudes with exponent field <= 12 |
| HostEvents.Events32 | src/Runtime_cpu.h:478-487 | every counter is 0 or 1; the division-by-zero and cancellation counters are 1 exactly when their tests hold; the infinity, NaN, comparison, underflow and all three latent counters are 1 exactly for their bit ranges (latent infinity from 0x7A000000 up to +infinity, and from 0xFA000000 up to -infinity) |
| HostEvents.Exponent64 | src/Runtime_cpu.h:208-214 | the result is bits 52-62, so it is below 2048 |
| HostEvents.Mantissa64 | src/Runtime_cpu.h:216-222 | the result is the low 52 bits |
| HostEvents.IsInf64 | src/Runtime_cpu.h:224-230 | true exactly for the two FP64 infinity patterns |
| HostEvents.IsInfinityPos64 | src/Runtime_cpu.h:232-237 | true exactly for +infinity |
| HostEvents.IsInfinityNeg64 | src/Runtime_cpu.h:239-244 | true exactly for -infinity |
| HostEvents.IsNaN64 | src/Runtime_cpu.h:246-250 | true exactly when the magnitude is above that of infinity |
| HostEvents.IsDivisionZero64 | src/Runtime_cpu.h:252-259 | true iff op is a division, the dividend is not ±0 and the divisor is ±0 |
| HostEvents.IsCancellation64 | src/Runtime_cpu.h:267-278 | true iff op is add or sub and an operand's exponent exceeds the result's by more than 30 |
| HostEvents.IsSubnormal64 | src/Runtime_cpu.h:287-300 | true exactly for non-zero magnitudes below 2^-1022 |
| HostEvents.IsLatentInfinity64 | src/Runtime_cpu.h:302-312 | true exactly for magnitudes with exponent field >= 1946 |
| HostEvents.IsLatentInfinityPos64 | src/Runtime_cpu.h:314-320 | true exactly for the patterns from 0x79A0... up to +infinity |
| HostEvents.IsLatentInfinityNeg64 | src/Runtime_cpu.h:322-328 | true exactly for the patterns from 0xF9A0... up to -infinity |
| HostEvents.IsLatentSubnormal64 | src/Runtime_cpu.h:330-339 | true exactly for non-zero magnitudes with exponent field <= 102 |
| HostEvents.Events64 | src/Runtime_cpu.h:517-526 | every counter is 0 or 1; the division-by-zero and cancellation counters are 1 exactly when their tests hold; every other counter is 1 exactly for its bit range (latent infinity from 0x79A0000000000000 up to +infinity, and from 0xF9A0000000000000 up to -infinity) |
| HostEvents.EventOccurred | src/Runtime_cpu.h:434-447 | true iff the record differs from the all-zero record |
| HostEvents.NaNEvents32 | src/Runtime_cpu.h:103-191 | a NaN sets the NaN flag and the unsigned latent infinity, but no signed infinity, no signed latent infinity and no underflow |
| HostEvents.NaNEvents64 | src/Runtime_cpu.h:232-328 | the same for FP64 |
| HostEvents.DangerZones32 | src/Runtime_cpu.h:156-202 | underflow implies latent underflow, ±infinity implies latent ±infinity, and the zones never overlap |
| HostEvents.DangerZones64 | src/Runtime_cpu.h:287-339 | the same for FP64 |
| HostEvents.CancellationResult32 | src/Runtime_cpu.h:137-147 | a cancelled result has exponent < 225, so it is neither infinite, NaN nor a latent infinity |
| HostEvents.CancellationResult64 | src/Runtime_cpu.h:267-278 | a cancelled FP64 result has exponent < 2017, so it is neither infinite nor NaN |
| HostEvents.NormalAdditionIsQuiet32 | src/Runtime_cpu.h:478-489 | an addition whose result and operands have ordinary exponents sets no flag, so nothing is recorded |
| Decimal.NatToString | src/FPC_Hashtable.h:271-282 | `%lu` writes a non-empty string of digits without a leading zero |
| Decimal.IntToString | src/FPC_Hashtable.h:238 | `%d` writes a non-empty string that starts with `-` exactly when the value is negative |
| Decimal.DigitsValue | src/Runtime_cpu.h:406 | the value read from a digit string is 0 exactly when every digit is `0` |
| Decimal.DigitsValueOfNatToString | src/FPC_Hashtable.h:271-282 | reading back the numeral `%lu` writes gives the number |
| HostTrap.EndsWith | src/Runtime_cpu.h:383-394 | true iff the suffix is a suffix of the string |
| HostTrap.Atoi | src/Runtime_cpu.h:406 | `atoi` reads a string of digits as its decimal value, and gives a negative value only when a `-` follows the leading white space |
| HostTrap.AtoiOfNonNumeric | src/Runtime_cpu.h:405-406 | the value of FPC_TRAP_LINE reads as 0 when it does not start (after white space) with a sign or digit |
| HostTrap.AtoiOfIntToString | src/Runtime_cpu.h:405-406 | the value of FPC_TRAP_LINE reads as the number its decimal numeral writes |
| HostTrap.ToU64 | src/Runtime_cpu.h:406 | the `(uint64_t)` cast keeps a value in range and wraps a negative one modulo 2^64 |
| HostTrap.LocationSelected | src/Runtime_cpu.h:396-414 | a selected record's file name ends with FPC_TRAP_FILE when that is set; with only FPC_TRAP_FILE set, every file name ending with it is selected; a selected record's line is the value of a numeric FPC_TRAP_LINE below 2^64 |
| HostTrap.AllLocationsByDefault | src/Runtime_cpu.h:396-414 | with neither FPC_TRAP_FILE nor FPC_TRAP_LINE set, every record is selected |
| HostTrap.SelectsFileAndLine | src/Runtime_cpu.h:396-414 | with both set, a record is selected iff its file name ends with the suffix and its line is the number |
| HostTrap.TrapKindsMembers | src/Runtime_cpu.h:416-427 | a kind is trapped on iff the location is selected, its variable is set and its counter is non-zero |
| HostTrap.AbortsAtFirstArmedKind | src/Runtime_cpu.h:362-427 | without FPC_TRAPS_HANG the program aborts at the first armed kind in the fixed order and reports only that kind |
| HostTrap.QuietWhenNothingArmed | src/Runtime_cpu.h:396-428 | an unselected location or a record with no armed kind reports nothing and does not abort |
| HostTrap.TrapHere | src/Runtime_cpu.h:362-381 | the notice carries the kind's name and the location, shows host and pid iff FPC_PRINT_HOSTNAME is set, and aborts iff FPC_TRAPS_HANG is unset |
| HostTrap.CheckAndTrap | src/Runtime_cpu.h:396-428 | the notices and abort are those of the trap outcome: all armed kinds in order with FPC_TRAPS_HANG, otherwise the first and an abort |
| FpcHashtable.AddCounters | src/FPC_Hashtable.h:164-175 | every counter of the sum is the sum of the two counters of that kind |
| FpcHashtable.ItemsEqual | src/FPC_Hashtable.h:137-142 | true iff the file-name pointers and the lines are equal |
| FpcHashtable.ItemsEqualIgnoresText | src/FPC_Hashtable.h:137-142 | equal file-name text through different pointers gives different keys |
| FpcHashtable.Hash | src/FPC_Hashtable.h:95-100 | the bucket is (pointer + line) wrapped to 64 bits, modulo the size, so it is below the size |
| FpcHashtable.KeyIndex | src/FPC_Hashtable.h:158-161 | the walk stops at the first record with the key, or at the end of the chain when none has it |
| FpcHashtable.FindInAfterAdd | src/FPC_Hashtable.h:164-175 | adding into a record changes only the counters found for that record's key |
| FpcHashtable.FindInAfterAppend | src/FPC_Hashtable.h:177-193 | appending a record with a fresh key makes it visible and hides no other key |
| FpcHashtable.WellPlacedKeysUnique | src/FPC_Hashtable.h:148-194 | in a table satisfying the invariant, a key is held by at most one record of the whole table |
| FpcHashtable.SetChainWellPlaced | src/FPC_Hashtable.h:148-194 | a set keeps every record in its hash bucket and each key at most once |
| FpcHashtable.SetChainTotal | src/FPC_Hashtable.h:177-193 | a set adds one record exactly when the key was absent from its bucket |
| FpcHashtable.SetChainLookup | src/FPC_Hashtable.h:148-194 | after a set, the counters for the item's key are the old ones plus the item's (or the item's when new); every other key is unchanged |
| FpcHashtable.HashTable.Init | src/FPC_Hashtable.h:59-89 | a fresh table of `size` empty buckets with `n == 0` that satisfies the invariant and holds no key |
| FpcHashtable.HashTable.Set | src/FPC_Hashtable.h:106-194 | only the item's bucket changes, into the merged chain (add in place or append a copy at the tail, head when empty); `n` grows by one iff the key was new; the invariant holds and every lookup is merged |
| FpcHashtable.Create | src/FPC_Hashtable.h:59-89 | returns null iff size < 1; otherwise a fresh valid table of `size` empty buckets with `n == 0` |
| FpcReport.ProgInputLength | src/FPC_Hashtable.h:243-252 | the input string is as long as the arguments plus one space each, and ends with a space when there is an argument |
| FpcReport.BuildProgInput | src/FPC_Hashtable.h:243-252 | the loop builds every argument followed by exactly one space, and the length the buffer was sized for |
| FpcReport.ReportFileName | src/FPC_Hashtable.h:215-241 | the name starts with `.fpc_logs/fpc_`, ends with `.json` and is longer than the two together |
| FpcReport.ReportFileNameParts | src/FPC_Hashtable.h:221-241 | after the prefix come the host name, or `node-unknown` when `gethostname` fails, then `_`, then the pid's decimal digits, preceded by `-` when it is negative, whose value is the pid |
| FpcReport.Text | src/FPC_Hashtable.h:263-291 | a field line is a tab and the quoted name; a comma ends it when flagged; an object closes with `  }` exactly when it is the last |
| FpcReport.ObjectFieldsCommas | src/FPC_Hashtable.h:264-280 | after the brace come 13 fields, each with a comma except the last |
| FpcReport.Render | src/FPC_Hashtable.h:259-294 | one text line per report line, in order |
| FpcReport.RecordsLinesAt | src/FPC_Hashtable.h:261-291 | the k-th object of the output is the k-th record, closed as the last iff it is the n-th printed |
| FpcReport.ReportShape | src/FPC_Hashtable.h:259-294 | when n counts the records, the report is `[`, one object per record in bucket-then-chain order with fields input, file, line and the ten counters, each closed with `  },` except the last, then `]` |
| FpcReport.ReportKeysDistinct | src/FPC_Hashtable.h:261-291 | a valid table's report has one object per distinct key |
| FpcReport.PrintChain | src/FPC_Hashtable.h:266-290 | walking one chain appends the objects of its records and counts them as printed |
| FpcReport.PrintHashTable | src/FPC_Hashtable.h:200-296 | the printed lines are exactly the report of the table's buckets and record count |
| HostRuntime.CheckItem | src/Runtime_cpu.h:474-475 | the record's key is the file-name pointer and the location cast to 64 bits |
| HostRuntime.Runtime.Init | src/Runtime_cpu.h:46-61 | no program arguments and a fresh valid table of 1000 empty buckets |
| HostRuntime.Runtime.InitArgs | src/Runtime_cpu.h:63-67 | argv is remembered and the table is a fresh valid empty table of 1000 buckets |
| HostRuntime.Runtime.Check32 | src/Runtime_cpu.h:462-499 | with cond 0 or no event nothing changes and nothing traps; otherwise only the record's bucket changes, into its chain with the record set (so the report's order follows), the count grows exactly when the key is new, every lookup is merged, and the trap outcome is reported |
| HostRuntime.Runtime.Check64 | src/Runtime_cpu.h:501-538 | the same for doubles |
| HostRuntime.Runtime.PrintLocations | src/Runtime_cpu.h:69-73 | the output is the report of the current table and arguments |
| DeviceStrings.CLen | src/Runtime.h:84-91 | the length is the index of the first NUL, capped at 1024 |
| DeviceStrings.Len | src/Runtime.h:84-91 | the loop returns that length |
| DeviceStrings.Copied | src/Runtime.h:94-101 | after the copy the destination holds the source's string |
| DeviceStrings.Cpy | src/Runtime.h:94-101 | the destination becomes the source's characters, a NUL, then its own old rest |
| DeviceStrings.Concatenated | src/Runtime.h:104-112 | the new length is lenD + lenS (capped at 1024) and the string is the concatenation when it fits |
| DeviceStrings.Cat | src/Runtime.h:104-112 | d[0..lenD) is unchanged, s is written from lenD, then a NUL, and the rest is unchanged |
| DeviceStrings.ReportLine | src/Runtime.h:115-121 | 80 characters: the border, 78 dashes, the border |
| DeviceStrings.Title | src/Runtime.h:128-133 | the error title for type 0, the warning title otherwise; it fits in the line |
| DeviceStrings.Header | src/Runtime.h:134-148 | the header line is 80 characters and starts and ends with `+`, with the odd dash on the left |
| DeviceStrings.HeaderCentresEvenTitle | src/Runtime.h:134-148 | an even-length title sits exactly in the middle, and the line elsewhere is the `+`-bordered dash line |
| DeviceStrings.TitlesAreCentred | src/Runtime.h:124-149 | both titles have even length, so both headers are exactly centred |
| DeviceStrings.PrintReportHeader | src/Runtime.h:124-149 | the buffers built by copying and concatenating hold exactly the header of the title |
| DeviceStrings.HeaderLine | src/Runtime.h:134-148 | the line buffer built around the title holds the header |
| DeviceStrings.LeftSide | src/Runtime.h:137-143 | the line buffer holds `+`, l/2 dashes and one more dash when l is odd |
| DeviceStrings.CatRightSide | src/Runtime.h:144-146 | the line buffer gains l/2 dashes and `+` |
| DeviceStrings.CatDashes | src/Runtime.h:139-140 | `count` concatenations of `-` append `count` dashes |
| DeviceCheck.IsAlmostOverflow32 | src/Runtime.h:453-467 | true exactly for magnitudes with exponent field >= 231 |
| DeviceCheck.IsAlmostSubnormal32 | src/Runtime.h:470-484 | true exactly for non-zero magnitudes with exponent field <= 25 |
| DeviceCheck.CheckOperation32 | src/Runtime.h:408-433 | infinity, then NaN, then subnormal interrupt (types 1, 0, 2); else almost subnormal, then almost overflow warn (types 2, 1); at most one report, each for an exact bit range, carrying op, loc and x |
| DeviceCheck.IsAlmostOverflow64 | src/Runtime.h:559-573 | true exactly for magnitudes with exponent field >= 1844 |
| DeviceCheck.IsAlmostSubnormal64 | src/Runtime.h:576-590 | true exactly for non-zero magnitudes with exponent field <= 204 |
| DeviceCheck.CheckOperation64 | src/Runtime.h:513-538 | the same chain with the FP64 thresholds, passing x as the double argument |
| DeviceCheck.DeviceZonesContainHostZones32 | src/Runtime.h:453-484 | every host latent infinity or latent underflow is reported on the device |
| DeviceCheck.DeviceZonesContainHostZones64 | src/Runtime.h:559-590 | the same for FP64 |
| DeviceCheck.SweptEntry | src/Runtime.h:390-401 | a swept entry is never positive, and is zero iff the entry was zero |
| DeviceCheck.ErrorLines | src/Runtime.h:390-396 | only positive entries are reported, with their index and count, in index order |
| DeviceCheck.ErrorLinesComplete | src/Runtime.h:390-396 | every positive entry is reported |
| DeviceCheck.NoErrorLinesWhenNonPositive | src/Runtime.h:390-401 | entries that are all zero or negative report nothing |
| DeviceCheck.SweepIdempotent | src/Runtime.h:397-401 | a second sweep changes nothing and reports nothing |
| DeviceCheck.PrintErrors | src/Runtime.h:382-403 | a thread other than 0 does nothing; thread 0 reports the positive entries and replaces every non-zero entry by INT_MIN |
| PyStrings.Split | tracing_tool/fpchecker.py:82 | `line.split()` yields non-empty tokens without white space |
| PyStrings.SplitOfToken | tracing_tool/fpchecker.py:82 | a single token splits into itself |
| PyStrings.SplitAtSpace | tracing_tool/fpchecker.py:82 | a white-space character separates: `Split(a + [c] + b)` is `Split(a)` followed by `Split(b)`, so with the token case the pieces are the maximal non-space runs, in order, whatever the runs of white space or the trailing newline |
| PyStrings.Join | tracing_tool/fpchecker.py:200 | `' '.join` of one token is that token (its round trip with `split` is `SplitJoin`) |
| PyStrings.SplitJoin | tracing_tool/fpchecker.py:196-200 | splitting the single-space join of tokens gives the tokens back |
| PyStrings.IndexOf | tracing_tool/fpchecker.py:93 | `tokens.index('-o')` is the first position of `-o`, or none exactly when it is absent |
| PyStrings.FindFrom | tracing_tool/fpchecker.py:222 | the first position at or after `from` where the pattern occurs, or none when it occurs nowhere there |
| PyStrings.Contains | tracing_tool/fpchecker.py:85-89 | `sub in s` holds iff `sub` occurs at some position of `s` |
| PyStrings.RFind | tracing_tool/fpchecker.py:218-219 | the last position of the character, or -1 when it does not occur |
| PyStrings.ReplaceFirst | tracing_tool/fpchecker.py:222 | `replace(f, g, 1)` replaces the first occurrence of f, and changes nothing when f does not occur |
| PyStrings.SplitextRoot | tracing_tool/fpchecker.py:219 | the root is a prefix of the path; when it differs, it is cut at the last dot, no `/` follows that dot, and a character other than a dot precedes it in the last component; and whenever the last component has a dot preceded there by such a character, the root is cut |
| PyStrings.AfterLastDot | tracing_tool/fpchecker.py:218 | the last dot component is a dot-free suffix that follows the last dot |
| FpcheckerTool.LinkTest | tracing_tool/fpchecker.py:85-90 | true iff none of `-c `, `--compile `, `-dc `, `--device-c ` occurs in the line and `-o ` does |
| FpcheckerTool.Invokes | tracing_tool/fpchecker.py:99-110 | true iff some token is the tool name or ends with `/` and the name |
| FpcheckerTool.CategoriseOutcome | tracing_tool/fpchecker.py:74-110 | the link test raises exactly when `-o` is missing or last; otherwise the flags hold iff their tests do, and a program link implies a link |
| FpcheckerTool.NewCompilationCommand | tracing_tool/fpchecker.py:74-110 | the constructor computes exactly the categorisation, errors included |
| FpcheckerTool.ScanTokens | tracing_tool/fpchecker.py:99-110 | the token loop sets each tool flag iff some token names that tool |
| FpcheckerTool.ChangeNameOfExecutable | tracing_tool/fpchecker.py:195-201 | `_fpc` is appended to the token after the first `-o` and the tokens are joined; ValueError or IndexError when there is no such token |
| FpcheckerTool.RenamedExecutableTokens | tracing_tool/fpchecker.py:195-201 | read back as tokens, only the output name changes, gaining `_fpc` |
| FpcheckerTool.LastCodeIndex | tracing_tool/fpchecker.py:237-244 | the position of the last token with a CUDA extension, or none when no token has one |
| FpcheckerTool.CodeFileName | tracing_tool/fpchecker.py:237-244 | the name found is a token with a CUDA extension, present exactly when one exists |
| FpcheckerTool.GetCodeFileName | tracing_tool/fpchecker.py:237-244 | the loop returns the last token with a CUDA extension, or None |
| FpcheckerTool.RememberCodeFile | tracing_tool/fpchecker.py:241-243 | the extension loop keeps the token iff it ends with some extension |
| FpcheckerTool.ReplaceFileName | tracing_tool/fpchecker.py:215-223 | no code file: the line unchanged and no new name; otherwise the new name is root + `_copy.` + last dot component, and the first occurrence is replaced |
| FpcheckerTool.CopyName | tracing_tool/fpchecker.py:218-220 | the copy's name has the same last dot component (the extension) as the original |
| FpcheckerTool.CopyKeepsExtension | tracing_tool/fpchecker.py:218-221 | the copy of a code file is a code file |
| FpcheckerTool.CopyInsertsSuffix | tracing_tool/fpchecker.py:218-221 | for a plain name, the copy is the name with `_copy` before its extension |
| FpcheckerTool.TokenContained | tracing_tool/fpchecker.py:222 | the file name, being a token, occurs in the line, so the replacement always happens |
| FpcheckerTool.FirstOccurrenceHitsObjectFile | tracing_tool/fpchecker.py:215-223 | `nvcc -c -o a.cu.o a.cu` fails the link test, and on it the object file is renamed and the source file is not |
| FpcheckerTool.ReplaceCodeFileToken | tracing_tool/fpchecker.py:215-223 | the intended replacement finds the same file name and new name as `replaceFileName` |
| FpcheckerTool.ReplacesOnlyTheSourceToken | tracing_tool/fpchecker.py:215-223 | the intended replacement changes exactly the source-file token into the copy's name, which is then the code file found |
| FpcheckerTool.TokenReplacementHitsSourceFile | tracing_tool/fpchecker.py:215-223 | on `nvcc -c -o a.cu.o a.cu` it gives `nvcc -c -o a.cu.o a_copy.cu` |

## Left out

- Concurrency is not modelled:
  - the pthread mutex around `_FPC_HT_SET_` (src/Runtime_cpu.h:490-496), so the model is a single-threaded merge;
  - the `atomicCAS` lock and the `trap` instruction of `_FPC_INTERRUPT_`/`_FPC_WARNING_` (src/Runtime.h:231-342), so a device report is a value.
- Printing and I/O are not modelled:
  - `printf`/`fflush`;
  - `stat`/`mkdir`/`fopen`/`fclose` of the report;
  - `gethostname`/`getpid`, which `ReportFileName` takes as parameters.
- `getenv` is a map from variable names to values.
- `raise(SIGABRT)` and `sleep(3600)` become the end of the notice sequence and a return.
- FpcHashtable.HashTable.Set: counters are unbounded naturals, so the `uint64_t` wrap-around of the additions is not modelled.
- FpcHashtable.AddCounters: the same unbounded-counter limitation applies.
- `HostTrap.Atoi`: values outside `int` are undefined behaviour in C and are not narrowed.
- The device report row (`_FPC_PRINT_REPORT_ROW_`, src/Runtime.h:152-226) is not modelled: it counts digits with `log10` and prints with `%e`.
- `_FPC_PRINT_AT_MAIN_` is not modelled: it is only printing.
- The thread-index computation `getGlobalIdx_3D_3D` is not modelled: the thread id is a parameter of `PrintErrors`.
- The device wrappers `_FPC_FP32/64_CHECK_ADD_` … `_DIV_` (src/Runtime.h:487-508, 593-614) are not modelled. Each only passes a fixed instruction code to the check operation, and callers of the model pass it directly.
- The device `_FPC_FP32/64_IS_SUBNORMAL` (src/Runtime.h:437-450, 543-556) is the same expression as the host test, so `CheckOperation32`/`CheckOperation64` use `HostEvents.IsSubnormal32`/`IsSubnormal64`.
- `_FPC_FP32/64_IS_COMPARISON` is written inline as `op == OpCmp` in `Events32`/`Events64`.
- `_FPC_HT_NEWPAIR_` is the append of a copy of the item inside `HashTable.Set`. Allocation failure, on which the source exits, is not modelled.
- The middle-of-chain insertion branch of `_FPC_HT_SET_` cannot be reached. It is an `assert false` branch in `Set`.
- Chains are sequences of record values in the bucket array, not heap nodes linked by `next`. Pointer aliasing between records is therefore not modelled.
- The `FPC_ERRORS_DONT_ABORT` build (src/Runtime.h:241-246, 294-299), in which neither device report prints or traps, is not modelled: `CheckOperation32`/`CheckOperation64` describe the default build.
- DeviceStrings.Cpy: requires a terminated source, distinct buffers and room in the destination. The source reads or writes out of bounds otherwise.
- DeviceStrings.Cat: the same requirements apply.
- Several loops are split into helper methods with their own contracts:
  - `PrintChain` for the chain walk;
  - `RememberCodeFile` for the extension loop;
  - `ScanTokens` for the token loop;
  - `LeftSide`, `CatRightSide` and `CatDashes` for the header builder.
- `os.path.splitext`: only the root is modelled (`PyStrings.SplitextRoot`), by the POSIX rules; the Windows path rules are not.
- Python `str` is a sequence of code points. `split()` uses the characters `str.isspace` accepts.
- The LLVM instrumentation passes are outside this model: src/Instrumentation.cpp and src/Instrumentation_cpu.cpp are not part of it.
- The `execve` interposer interception_tool/intercept.c is not part of this model.
- These parts of tracing_tool/fpchecker.py are not part of this model: `replayCommands`, `execTraces`, `loadConfigFile`, `convertCommand`, `convertArchiveCommand`, `removeObjectFile`, `changeNameOfObjectFiles`, `replaceFileNameAndCopy` and the main block.
- The build tests under tests/ are not part of this model.

## Findings

| source | as written | input that shows it | evidently intended | confidence | as-written member | corrected member |
|---|---|---|---|---|---|---|
| tracing_tool/fpchecker.py:215-223 | `line.replace(fileName, newFileName, 1)` replaces the first substring occurrence of the source file's name anywhere in the line | `nvcc -c -o a.cu.o a.cu`, a compile command (it has `-c`), which `convertCommand` passes to `replaceFileName` at line 315: the result is `nvcc -c -o a_copy.cu.o a.cu`, so the object file is renamed and the original source is still compiled | replace the token that names the source file: `nvcc -c -o a.cu.o a_copy.cu` | not executed | FpcheckerTool.FirstOccurrenceHitsObjectFile | FpcheckerTool.ReplacesOnlyTheSourceToken |
