# sfdisk-sort: the parsing and classifying core in Dafny

sfdisk-sort reads the dump that `sfdisk -d` prints for a disk. It re-numbers
the partitions so that their designations follow their start blocks, and
writes the dump back. This project models the pieces of that program that
the repository defines, and proves properties about them:

- **The `Partition` record and its ordering** (`Partitions`). The model
  covers the default record, the test helper `new_from_start_block`, and the
  stable sort by start block used by the module's test.
  - The sort is specified by an insertion sort on sequences (`SortByStartBlock`).
  - The result is proved ordered, a permutation of the input, and stable.
  - Any sort with those three properties gives that same sequence.
  - An in-place array sort (`SortInPlace`) is proved to leave exactly that
    sequence in the array.
- **The partition-line parser** (`PartitionParse`). It covers
  `is_sfdisk_partition_line` and `parse_sfdisk_partition_line`.
  - The line pattern becomes a scanner that tries each start position and
    keeps the leftmost match.
  - The parse is a function over the captured groups.
  - An imperative method with the token-collecting loop is proved equal to it.
- **The position-driven parser** (`PartitionParser`). It covers
  `SfdiskPartitionInfo`, `ParseMap` and `LineParser::foo`.
  - The field-by-field loop is a method proved equal to a fold over the
    whitespace-separated fields.
  - Lemmas about the fold say what the result and the errors mean.
  - On the repository's test line, both parsers give the same partition.
- **The two device-family classifiers.**
  - `LinuxBlock` models `src/linux/block.rs`: the bare-name patterns, the
    partition-path patterns, `linux_blk_name` and
    `linux_part_prefix_and_part_num`.
  - `DiskBlock` models the older `src/disk/block.rs`, whose MMC and NVMe
    patterns require a trailing `p`.
  - `Disks` models the `Disk` record and `Disk::new_disk_without_parts`.
- **Shared pieces.**
  - `Text`: ASCII character classes, runs, literals, and `str::parse::<usize>`
    with its error kinds. It also has `split_whitespace` as `Tokens`.
  - `Search`: first-match search over a table.
  - `Wrappers`: `Option` and `Result`.

Modelling choices:

- Each regular expression is a hand-written scanner over `seq<char>`.
  - Matching is unanchored: the leftmost position where the pattern matches
    wins.
  - Greedy quantifiers decide the captured groups. For example,
    `\w+(?P<part_num>\d+)` leaves `part_num` only the last digit of the path.
- The classifier tables are `HashMap`s. Their iteration order is not
  specified, so it is a parameter `order`: any arrangement of the four
  families.
- `usize` is the 64-bit range. `Usize` is `0 .. 2^64 - 1`.
- Error strings are datatypes naming the failure and its data. The one fixed
  message, in `src/disk/mod.rs`, is kept word for word.
- Characters are ASCII only. `\d`, `\w`, `\s` and `split_whitespace` use the
  ASCII classes; Rust's are Unicode.
- Datatype equality is structural. It plays the part of `#[derive(PartialEq)]`
  on `Partition`: two partitions are equal exactly when all four fields are.

Where the code and its documentation disagree, the model follows the code:

- **Designation is the last digit of the path.** The code's pattern
  (`src/partition/parse.rs:5`) takes only that digit, not all trailing digits:
  `/dev/sda12` gets designation 2 (`PartitionOfLineExampleSda12`). The
  part-number parse error is therefore unreachable.
- **The classifier order is not fixed.** The code iterates a `HashMap`, not a
  fixed priority list, and the families are not mutually exclusive.
  `LinuxBlkNameOrderMatters` shows that `/dev/sdvda` matches both SCSI and
  VIRT, so the answer depends on the order.
- **The split test wins over the doc comment.** The doc comment of
  `linux_part_prefix_and_part_num` (`src/linux/block.rs:62-64`) shows
  `("sda", "1")`. The module's tests expect `("/dev/sda", "1000")`, and so
  does the code.
- **`/dev/nvme0n1` classifies as `None`.** The older classifier's test
  (`src/disk/block.rs:79`) expects NVME for it, but the pattern at
  `src/disk/block.rs:22` needs a `p` after the namespace. The model gives
  `None` (`DiskBlock.LinuxBlkNameExampleNvme0n1`).

## Model

| member | source | states |
|---|---|---|
| Partitions.NewFromStartBlock | src/partition/mod.rs:21-27 | the result is the default partition (designation 0, empty name, no extras) with the given start block |
| Partitions.SortByStartBlockSorted | src/partition/mod.rs:42-43 | the sort's result is ordered by start block (ties allowed) |
| Partitions.SortByStartBlockPermutes | src/partition/mod.rs:42-43 | the sort's result is a permutation of its input (equal multisets) |
| Partitions.SortByStartBlockStable | src/partition/mod.rs:43 | for every start block, the partitions with that start block appear in the same order before and after the sort |
| Partitions.StableSortUnique | src/partition/mod.rs:43 | any ordered sequence with the input's groups of equal start blocks equals `SortByStartBlock` of the input, so every stable sort (Rust's merge sort included) gives this result |
| Partitions.SortedGroupsUnique | src/partition/mod.rs:43 | two sequences ordered by start block with the same groups are equal |
| Partitions.InsertByStartPermutes | src/partition/mod.rs:43 | inserting a partition adds exactly that partition |
| Partitions.InsertByStartSorted | src/partition/mod.rs:43 | inserting into an ordered sequence keeps it ordered |
| Partitions.InsertByStartGroups | src/partition/mod.rs:43 | inserting `x` in front of the first partition that does not start before it keeps every group of equal start blocks in order, with `x` first in its group |
| Partitions.InsertByStartAt | src/partition/mod.rs:43 | the inserted partition lands right after the partitions that start before it |
| Partitions.SortByStartBlockExample | src/partition/mod.rs:29-49 | start blocks 2048, 2069, 2022, 1969 sort to 1969, 2022, 2048, 2069, the sequence the test expects |
| Partitions.InsertForward | src/partition/mod.rs:43 | one in-place step: the front of the array is unchanged, and the back is the old `a[i]` inserted into the sorted old suffix |
| Partitions.SortInPlace | src/partition/mod.rs:42-43 | the array afterwards holds the sort of its old contents |
| LinuxBlock.LinuxBlkName | src/linux/block.rs:48-60 | a family is returned only if its bare pattern occurs in the name and no family before it in table order matches; `None` exactly when no pattern occurs anywhere |
| LinuxBlock.BareOccursIff | src/linux/block.rs:19-22 | a bare pattern occurs exactly when it matches at some position (unanchored `is_match`) |
| LinuxBlock.BareOccursUnderDevDir | src/linux/block.rs:19-22 | no bare pattern starts inside `/dev/`, so whether a pattern occurs in `/dev/t` depends on `t` alone |
| LinuxBlock.LinuxBlkNameOnlyMatch | src/linux/block.rs:48-60 | when exactly one family's pattern occurs, every table order returns that family |
| LinuxBlock.LinuxBlkNameOrderMatters | src/linux/block.rs:29-35 | `/dev/sdvda` is SCSI under one table order and VIRT under another |
| LinuxBlock.LinuxBlkNameExampleSda1000 | src/linux/block.rs:135-147 | `/dev/sda1000` is SCSI under every table order |
| LinuxBlock.LinuxBlkNameExampleSdc1 | src/linux/block.rs:135-147 | `/dev/sdc1` is SCSI under every table order |
| LinuxBlock.LinuxBlkNameExampleVda1 | src/linux/block.rs:135-147 | `/dev/vda1` is VIRT under every table order |
| LinuxBlock.LinuxBlkNameExampleMmcblk | src/linux/block.rs:135-147 | `/dev/mmcblk10p20` is MMCBLK under every table order |
| LinuxBlock.LinuxBlkNameExampleNvme | src/linux/block.rs:135-147 | `/dev/nvme0n1p1` is NVME under every table order |
| LinuxBlock.LinuxBlkNameExampleNvme1 | src/linux/block.rs:141 | `/dev/nvme1` matches no family |
| LinuxBlock.LinuxBlkNameExampleSd1 | src/linux/block.rs:142 | `/dev/sd1` matches no family |
| LinuxBlock.PartMatchAt | src/linux/block.rs:24-27 | a partition-pattern match at a position ends its prefix where the family's prefix pattern ends; the number is a non-empty digit run followed by a non-digit or the end (greedy `\d+`) |
| LinuxBlock.FirstPartMatch | src/linux/block.rs:70 | the match returned is the leftmost one; `None` exactly when the pattern matches nowhere |
| LinuxBlock.LinuxPartPrefixAndPartNum | src/linux/block.rs:65-95 | `Err` exactly when the family's partition pattern matches nowhere, and then only the no-match error: the missing-prefix and missing-number errors cannot occur |
| LinuxBlock.LinuxPartPrefixAndPartNumOk | src/linux/block.rs:78-94 | on success the two parts are the prefix and number groups of the leftmost match |
| LinuxBlock.LinuxPartPrefixAndPartNumShape | src/linux/block.rs:24-27 | on success the prefix has the family's shape: `/dev/sd` or `/dev/vd` and a letter; or `/dev/mmcblk`, digits and `p`; or `/dev/nvme`, digits, `n`, digits and `p`. The number is a non-empty maximal digit run right after it, and the prefix followed by the number sits in the path at the leftmost match |
| LinuxBlock.LinuxPartPrefixAndPartNumJoin | src/linux/block.rs:37-39 | splitting a well-shaped prefix followed by digits gives back exactly that prefix and those digits (the partner of joining them) |
| LinuxBlock.PrefixShapeOfMatch | src/linux/block.rs:24-27 | what the prefix group captures has the family's prefix shape |
| LinuxBlock.PrefixEndOfShape | src/linux/block.rs:24-27 | every well-shaped prefix at the start of a path is recognised up to its end |
| LinuxBlock.LinuxPartPrefixAndPartNumExampleSda1000 | src/linux/block.rs:151 | `/dev/sda1000` as SCSI splits into `/dev/sda` and `1000` |
| LinuxBlock.LinuxPartPrefixAndPartNumExampleSdc1 | src/linux/block.rs:152 | `/dev/sdc1` as SCSI splits into `/dev/sdc` and `1` |
| LinuxBlock.LinuxPartPrefixAndPartNumExampleVda1 | src/linux/block.rs:153 | `/dev/vda1` as VIRT splits into `/dev/vda` and `1` |
| LinuxBlock.LinuxPartPrefixAndPartNumExampleMmcblk | src/linux/block.rs:154 | `/dev/mmcblk10p20` as MMCBLK splits into `/dev/mmcblk10p` and `20` |
| LinuxBlock.LinuxPartPrefixAndPartNumExampleNvme | src/linux/block.rs:155 | `/dev/nvme0n1p1` as NVME splits into `/dev/nvme0n1p` and `1` |
| DiskBlock.LinuxBlkName | src/disk/block.rs:33-45 | a family is returned only if its pattern occurs and no earlier family in table order matches; `None` exactly when no pattern occurs |
| DiskBlock.PatternOccursIff | src/disk/block.rs:19-22 | a pattern occurs exactly when it matches at some position |
| DiskBlock.PatternOccursUnderDevDir | src/disk/block.rs:19-22 | whether a pattern occurs in `/dev/t` depends on `t` alone |
| DiskBlock.LinuxBlkNameNeedsPartitionSuffix | src/disk/block.rs:21-22 | a whole MMC disk name `mmcblk<digits>` and a whole NVMe name `nvme<digits>n<digits>` match neither pattern, which need a trailing `p` |
| DiskBlock.MmcblkDiskNoMatch | src/disk/block.rs:21 | `mmcblk` and digits with no `p` after them never match the MMC pattern |
| DiskBlock.NvmeDiskNoMatch | src/disk/block.rs:22 | `nvme`, digits, `n` and digits with no `p` after them never match the NVMe pattern |
| DiskBlock.LinuxBlkNameExampleSda | src/disk/block.rs:77 | `/dev/sda` is SCSI under every table order |
| DiskBlock.LinuxBlkNameExampleSdc | src/disk/block.rs:78 | `/dev/sdc` is SCSI under every table order |
| DiskBlock.LinuxBlkNameExampleVda | src/disk/block.rs:80 | `/dev/vda` is VIRT under every table order |
| DiskBlock.LinuxBlkNameExampleNvme1 | src/disk/block.rs:81 | `/dev/nvme1` matches no family |
| DiskBlock.LinuxBlkNameExampleSd1 | src/disk/block.rs:82 | `/dev/sd1` matches no family |
| DiskBlock.LinuxBlkNameExampleNvme0n1 | src/disk/block.rs:21-22 | `/dev/nvme0n1` matches no family, as the pattern is written |
| DiskBlock.LinuxBlkNameExampleNvme0n1p1 | src/disk/block.rs:22 | `/dev/nvme0n1p1` is NVME under every table order |
| Disks.NewDiskWithoutParts | src/disk/mod.rs:13-24 | `Ok` exactly when some family's pattern occurs in the name. On `Ok`, the disk carries the name, no partitions and the default family SCSI, and the second component is the classifier's answer. Otherwise it is the fixed message |
| Disks.NewDiskWithoutPartsExampleVda | src/disk/mod.rs:16-19 | `/dev/vda` gives a disk still marked SCSI together with VIRT |
| Disks.NewDiskWithoutPartsExampleNvme0n1 | src/disk/mod.rs:21-23 | `/dev/nvme0n1` is refused with the fixed message |
| PartitionParse.PathEnd | src/partition/parse.rs:5 | the path group `/dev/\w+` ending in a digit spans at least seven characters |
| PartitionParse.PathEndShape | src/partition/parse.rs:5 | the path is `/dev/` and word characters ending in a digit, and it stops at a non-word character or the end (greedy `\w+`) |
| PartitionParse.LineMatchAtShape | src/partition/parse.rs:5 | a match at a position has its path there. It is followed by whitespace, `:`, whitespace, an optional `:`, `start=`, whitespace, the start-block digits and `,`. The rest runs to the first newline or the end |
| PartitionParse.LineMatchAtDigits | src/partition/parse.rs:5 | the start-block group is all digits |
| PartitionParse.FirstLineMatchLeftmost | src/partition/parse.rs:16 | the match used is the leftmost one; there is none exactly when the pattern matches at no position |
| PartitionParse.IsSfdiskPartitionLineIff | src/partition/parse.rs:11-13 | a line is a partition line exactly when the pattern matches at some position |
| PartitionParse.SplitWhitespace | src/partition/parse.rs:65-69 | the loop collects exactly the whitespace-separated tokens of the text, in order |
| PartitionParse.ParseSfdiskPartitionLine | src/partition/parse.rs:15-77 | the method, which fills a default partition field by field and pushes the extras in a loop, returns what `PartitionOfLine` specifies |
| PartitionParse.PartitionOfLineBadLine | src/partition/parse.rs:11-19 | the parse fails with "bad line" exactly when `is_sfdisk_partition_line` is false |
| PartitionParse.PartitionOfLineMatched | src/partition/parse.rs:15-77 | on a partition line the result is decoded from the leftmost match: designation the last digit of the path, start block the value of the digits, name the path, extras the tokens of the rest. The one failure is a start block over `usize` |
| PartitionParse.PartitionOfGroups | src/partition/parse.rs:25-72 | decoding the captured groups: a one-digit part number always parses, and the start block parses unless it overflows |
| PartitionParse.PartitionOfLineErr | src/partition/parse.rs:17-63 | every failure is either "bad line" or a positive overflow of an all-digit start block; no partly filled partition is returned |
| PartitionParse.PartitionOfLineName | src/partition/parse.rs:25-35 | on success the name is `/dev/`, word characters and a final digit, and the designation is that digit's value, at most 9 |
| PartitionParse.PartitionOfLineOk | src/partition/parse.rs:25-35 | on success the name is the matched path and the designation the value of its last character |
| PartitionParse.PartitionOfLineExtras | src/partition/parse.rs:65-72 | on success the extras are the tokens of the text after the start block's comma: non-empty, free of whitespace, in order, and together spelling that text's non-space characters (trailing commas stay attached) |
| PartitionParse.PartitionOfLayout | src/partition/parse.rs:15-77 | a line laid out the way the pattern expects parses to its path, last digit, start-block value and the tokens of its rest |
| PartitionParse.PartitionOfSfdiskLine | src/partition/parse.rs:15-77 | round trip: a line put together from a path, gaps, an optional second colon, a start block and a rest parses back to those pieces (or to the overflow error) |
| PartitionParse.PartitionOfTestPath | src/partition/parse.rs:107-154 | the test's line shape with any well-formed path gives start block 2048, the path's last digit and the test's eight extras |
| PartitionParse.PartitionOfLineExampleSda1 | src/partition/parse.rs:111-131 | the sda1 test line gives designation 1, start block 2048, name `/dev/sda1` and the eight extras |
| PartitionParse.PartitionOfLineExampleNvme0n1p1 | src/partition/parse.rs:133-153 | the nvme0n1p1 test line gives designation 1, start block 2048, name `/dev/nvme0n1p1` and the eight extras |
| PartitionParse.PartitionOfLineExampleSda12 | src/partition/parse.rs:5 | `/dev/sda12` gets designation 2, the last digit only |
| PartitionParse.TestRestTokens | src/partition/parse.rs:113-129 | the text after the test line's comma is one line and splits into the eight expected extras |
| PartitionParser.FindFrom | src/partition/parser.rs:40 | the leftmost occurrence of the pattern at or after a position, or `None` when there is none |
| PartitionParser.SecondPiece | src/partition/parser.rs:39-41 | `split(pat).get(1)` is `None` exactly when the pattern does not occur, and otherwise is no longer than what follows the pattern |
| PartitionParser.SecondPieceFound | src/partition/parser.rs:39-41 | for a non-empty pattern the piece is what lies between its first occurrence and the next one (or the end) |
| PartitionParser.SecondPieceOf | src/partition/parser.rs:39-41 | conversely, text lying between the first occurrence and the next one (or the end) is the piece returned |
| PartitionParser.SecondPieceEmptyPattern | src/partition/parser.rs:39-41 | splitting at an empty pattern gives the field's first character as the second piece (empty for an empty field) |
| PartitionParser.BeforeComma | src/partition/parser.rs:74-75 | `split(",").get(0)` is the longest prefix without a comma, ending at the first comma or the end |
| PartitionParser.BeforeCommaOf | src/partition/parser.rs:74-75 | the first piece of comma-free text followed by a comma or nothing is that text |
| PartitionParser.FieldCheck | src/partition/parser.rs:32-87 | what one field does: unmapped fields are extras. A `PartName` field sets the name to the field, and fails as missing its number exactly when the base name does not occur. Separator and start-text fields pass only when equal to the expected value. A `StartBlock` field sets the start block. The values read and the remaining errors are stated per kind by the four lemmas below |
| PartitionParser.FieldCheckName | src/partition/parser.rs:38-60 | a name field whose base name is first found with `piece` after it passes exactly when `piece` parses as a `usize` (optional `+`, decimal digits, at most 2^64-1); the number becomes the designation and the field the name; a piece that does not parse is reported as `BadPartNum` with the piece and the parse error |
| PartitionParser.FieldCheckNameDigits | src/partition/parser.rs:38-60 | for a piece of plain digits after the base name: the designation is the piece's decimal value, or `BadPartNum(piece, PosOverflow)` when it exceeds 2^64-1 |
| PartitionParser.FieldCheckLiteral | src/partition/parser.rs:61-72 | a separator or start-text field passes (changing nothing) exactly when it equals the expected text; a different field is reported as `WrongSeparator` / `WrongStartText` with the expected text; an entry without expected text is the `unwrap` failure at that position |
| PartitionParser.FieldCheckStart | src/partition/parser.rs:73-86 | a start-block field is read up to its first comma: it passes exactly when that text parses as a `u64`, whose value becomes the start block, and otherwise fails as `BadStartBlock` with that text and the parse error |
| PartitionParser.LineParser.Foo | src/partition/parser.rs:24-94 | the loop over the fields, with its early returns, computes `ParseFields` |
| PartitionParser.ParseFieldsOk | src/partition/parser.rs:31-93 | `foo` succeeds exactly when every field passes the check for its 1-based position |
| PartitionParser.ParseFieldsError | src/partition/parser.rs:31-90 | on failure, the error is that of the first field that fails its check |
| PartitionParser.ParseFieldsResult | src/partition/parser.rs:28-93 | on success, the extras are the unmapped fields in order. Name and designation come from the last `PartName` field, and the start block from the last `StartBlock` field. Each keeps its default when no field has that role |
| PartitionParser.ParseFieldsUnmapped | src/partition/parser.rs:28-36 | a map naming only positions past the last field leaves the default partition with every field as an extra |
| PartitionParser.ParseFieldsEmptyMap | src/partition/parser_tests.rs:48-61 | with an empty map every field of the header text is an extra and the numbers stay 0 |
| PartitionParser.FoldFieldsOk | src/partition/parser.rs:31-90 | the fold from any position succeeds exactly when every remaining field passes its check |
| PartitionParser.FoldFieldsExtras | src/partition/parser.rs:34-93 | the fold appends exactly the unmapped remaining fields to the extras |
| PartitionParser.FoldFieldsFirstError | src/partition/parser.rs:31-90 | a failing fold fails with the error of its first failing field, and every field before that one passes |
| PartitionParser.FoldFieldsName | src/partition/parser.rs:38-47 | a successful fold takes name and designation from the last partition-name field, and keeps the ones it started with when there is none |
| PartitionParser.FoldFieldsStart | src/partition/parser.rs:73-87 | a successful fold takes the start block from the last start-block field, and keeps the one it started with when there is none |
| PartitionParser.UnmappedFromAll | src/partition/parser.rs:34-36 | when no remaining position is mapped, every remaining field is an extra |
| PartitionParser.TestNameField | src/partition/parser_tests.rs:26 | the test's `/dev/sda1` field at position 1 sets designation 1 and the name |
| PartitionParser.TestStartField | src/partition/parser_tests.rs:29 | the test's `2048,` field at position 4 sets start block 2048 |
| PartitionParser.TestLineTokens | src/partition/parser_tests.rs:9 | the test line splits into its twelve fields |
| PartitionParser.ParseFieldsExample | src/partition/parser_tests.rs:8-46 | the test's map on the test line gives designation 1, start block 2048, name `/dev/sda1` and the eight extras |
| PartitionParser.TestLineIsSfdiskLine | src/partition/parser_tests.rs:9 | the test line is the sda1 line of the other parser's test |
| PartitionParser.ParsersAgreeOnTestLine | src/partition/parser_tests.rs:8-46 | on that line both parsers succeed and return the same partition |
| Text.ParseUsizeSpec | src/partition/parse.rs:33-60 | `str::parse::<usize>` succeeds exactly when the text after an optional `+` is a non-empty digit run of value at most `2^64 - 1`, and returns that value |
| Text.ParseDigits | src/partition/parse.rs:50-60 | a digit run parses to its value, or fails with positive overflow |
| Text.ParseUsizeRoundTrip | src/partition/parse.rs:50 | parsing the decimal text of any `usize` gives it back |
| Text.DecimalString | src/partition/parse.rs:50 | the decimal text of a number is a non-empty digit run, has no leading zero, and has that value |
| Text.TokensOfSpaced | src/partition/parse.rs:66 | splitting tokens laid out with whitespace gaps gives back the tokens (the partner of `split_whitespace`) |
| Text.TokensKeepText | src/partition/parse.rs:66-69 | the tokens, joined, are exactly the non-space characters of the text: nothing is lost or reordered |
| Text.Tokens | src/partition/parse.rs:66 | every token is non-empty and free of whitespace |
| Search.FirstIn | src/linux/block.rs:48-60 | the first element in order that satisfies the test, or `None` exactly when none does |

## Left out

- `src/main.rs` is not part of this model. It does standard input and output, and calls `parse_full_disk`, `rearrange`, `header_lines` and `Display for Partition`, which the repository files shown here do not define.
- The redesignation step and writing the dump back are not modelled. The source defines neither; only their building blocks (the sort and the prefix split) are modelled.
- `src/error/mod.rs` is not part of this model. It has two unit error structs with fixed messages, and nothing uses them.
- The `Debug` implementations of `LinuxBlockDevice` and the tests' `println!` calls are not modelled.
- The regex engine, `lazy_static` and the compiled tables are replaced by one scanner per pattern.
- `HashMap` iteration order is an `order` parameter, which may be any arrangement of the four families.
- `\d`, `\w`, `\s` and `split_whitespace` are ASCII only. Under Unicode, the part-number parse error in `src/partition/parse.rs:37-42` would become reachable for non-ASCII digits.
- Error messages are datatypes carrying the failing text and the integer error kind, not formatted strings.
- `LineParser` is a datatype, and its constructor stands for `LineParser::new`. `src/partition/parser.rs` is not in the crate's module tree, and it assigns a `u64` to a `usize` field, which does not compile as written. The model gives both the same 64-bit range.
- The panic of `expected_value.unwrap()` on a missing expected value (`src/partition/parser.rs:62, 68`) becomes the error `ExpectedValueMissing(position)`.
- The in-place sort is an insertion sort, not Rust's merge sort. `StableSortUnique` shows that both leave the same order.
- The table order is a parameter of the classifiers. The run-to-run order of a real `HashMap` is not modelled.
