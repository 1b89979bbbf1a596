# PDB records and helper utilities, modelled in Dafny

This project models the pure core of a small Python utility package (`my_lib`).

- **PDB records (`pdb_lib.py`).** A `PdbRecord` is built from one ATOM/HETATM line of a PDB coordinate file. The model covers:
  - the constructor's gates, in code order: length, integer columns, record name, decimal columns;
  - the fields it slices out of the fixed columns;
  - the ion and remove tables and the `is_*` classifiers;
  - the atom-name accessors and setter;
  - `reset_data`, which rebuilds the line;
  - `file_name`;
  - `load_pdb_file`, which keeps the lines that construct.

  The column layout is the one of the ATOM and HETATM records in the wwPDB Atomic Coordinate Entry Format Description, version 3.3, plus the legacy segment identifier in columns 73-76.
- **List splitting (`thread_lib.py`).** `split_array` covers contiguous chunks by size, balanced chunks by count, and round-robin dealing. `split_array_advance` does greedy balancing by a numeric key.
- **Type checks (`check_type.py`).** The type predicates, `is_blank_str` and `is_cjk`, over a `Value` datatype for Python values.
- **Validators (`exception_lib.py`).** `FlaskFatalError` and the two validators with their ordered error messages.
- **URL file names (`internet_lib.py`).** `get_file_name_from_url`.
- **File helpers (`file_lib.py`).** The pure parts of five helpers:
  - the blank check of `__convert_path`;
  - the line shaping of `load_file_to_list_str`, `load_file_to_list_str_n_head` and `write_list_str_to_file`;
  - the probe loop of `re_create_new_filename`;
  - the zero-byte scan of `is_binary_file`.

  Inputs from the outside world become data. Lines are a `seq<string>`, successive `readline()` results a `seq<string>`, file content a `seq<byte>`, and the existing paths a `set<string>`.

Python errors are values: `Result`/`Outcome`, with the message or an error datatype. Where the code as written raises (see Findings), an `...AsWritten` member models that behaviour next to the corrected member the rest of the model uses.

Files and modules:

| file | module | content |
|---|---|---|
| `results.dfy` | `Results` | `Option`, `Result`, `Outcome` |
| `text.dfy` | `Text` | `strip`, `rstrip(chars)`, `isdigit`, `int`, `%d`, `ljust`/`rjust`, `find`, `split`, `join` |
| `check_type.dfy` | `CheckType` | the `Value` datatype and `check_type.py` |
| `exception_lib.dfy` | `ExceptionLib` | `exception_lib.py` |
| `internet_lib.dfy` | `InternetLib` | `get_file_name_from_url` |
| `file_lib.dfy` | `FileLib` | the file helpers listed above |
| `pdb_lib.dfy` | `PdbLib` | the record, its gates, accessors, serialiser and batch filter |
| `pdb_properties.dfy` | `PdbProperties` | properties of the parser, classifiers, atom name and file name |
| `pdb_layout.dfy` | `PdbLayout` | the column layout of the rebuilt line and its round trip through the parser |
| `thread_lib.dfy` | `ThreadLib` | `split_array` and `split_array_advance` |

## Model

| member | source | states |
|---|---|---|
| `PdbLib.Parse` | my_lib/pdb_lib.py:34-63 | A line shorter than 78 characters fails with the length error. Otherwise a bad integer column fails with the number error before the record name is looked at, and then a bad record name fails. Then bad decimal columns fail with the decimal error. The result is a record exactly when all four gates pass. That record is well formed, and both `data` and `org_data` are the input line. |
| `PdbLib.Build` | my_lib/pdb_lib.py:40-63 | The fields sliced from a line that passed the gates make a well-formed record: ATOM or HETATM, serial below 100000, residue number below 10000, every string field trimmed and no wider than its columns. |
| `PdbLib.FieldValue` | my_lib/pdb_lib.py:44-50 | `int()` of a digit column is below 10 to the power of the column width. |
| `PdbLib.Column` | my_lib/pdb_lib.py:45-62 | A trimmed column slice has no surrounding whitespace and is no wider than the column. |
| `PdbProperties.ParseColumns` | my_lib/pdb_lib.py:40-63 | Each field of a constructed record is the trimmed slice at its fixed offset, and the two integers are the values of their digit columns. The charge is the trimmed columns 79-80 when the line is longer than 78 characters, and empty otherwise. |
| `PdbProperties.SerialLetterFailsOnNumbers` | my_lib/pdb_lib.py:37-42 | A line of 78 or more characters with any character in columns 7-11 that is neither a digit nor whitespace fails on the number gate. It never reaches the record-name gate, so a `HEADER` line is refused as a number error. |
| `PdbProperties.AtomOrHetatm` | my_lib/pdb_lib.py:65-75 | A constructed record is exactly one of ATOM and HETATM, and a cofactor exactly when it is a HETATM. |
| `PdbProperties.IonTable` | my_lib/pdb_lib.py:7-8 | The element a record stores is trimmed. So the ion-table entry `"IN "` never matches: indium is never an ion, while sodium is. |
| `PdbProperties.RemoveItemColumns` | my_lib/pdb_lib.py:77-83 | `is_remove_item` of a constructed record holds iff the element of columns 77-78 is in the remove table or the residue of columns 18-20 is `HOH`. |
| `PdbProperties.IonRenameColumns` | my_lib/pdb_lib.py:85-93 | `is_ion_need_change_residue_name` holds iff the element of columns 77-78 is in the ion table and differs from the residue of columns 18-20. |
| `PdbLib.IsRemoveItemAsWritten` | my_lib/pdb_lib.py:81-83 | As written, `is_remove_item` raises `AttributeError` exactly when the element is not in the remove table. When it answers, the answer is the intended one. |
| `PdbLib.IsIonNeedChangeResidueNameAsWritten` | my_lib/pdb_lib.py:89-93 | As written, the property raises `AttributeError` exactly when the element is an ion. Otherwise it answers false, as intended. |
| `PdbProperties.WaterRaisesAsWritten` | my_lib/pdb_lib.py:81-83 | A water with element `O` is a remove item, yet `is_remove_item` as written raises on it. |
| `PdbProperties.SodiumRaisesAsWritten` | my_lib/pdb_lib.py:89-93 | For sodium the intended answer is whether the residue name differs from `NA`, yet the property as written raises. |
| `PdbLib.AtomNameFull` | my_lib/pdb_lib.py:99-101 | The full atom name is four characters whenever both parts have at most two. |
| `PdbProperties.AtomNameJoinsParts` | my_lib/pdb_lib.py:99-105 | `atom_name` of trimmed parts of at most two characters is the two parts joined: trimming removes exactly the justification padding. |
| `PdbLib.RenamedParts` | my_lib/pdb_lib.py:107-113 | A new name of at most two characters replaces part 1 only. A longer one is cut after its second character into part 1 and an uncapped part 2 that together give the name. |
| `PdbLib.SetAtomName` | my_lib/pdb_lib.py:107-114 | The setter changes the two parts as above and rebuilds `data` from the new fields. Every other field, `org_data` included, is unchanged. |
| `PdbProperties.SetShortNameKeepsPart2` | my_lib/pdb_lib.py:107-110 | After setting a short trimmed name, `atom_name` is that name followed by the old part 2. |
| `PdbProperties.RenameHg21ToO` | my_lib/pdb_lib.py:107-110 | Renaming the atom `HG21` to `O` gives `O21`. |
| `PdbLib.SetAtomNameAsWritten` | my_lib/pdb_lib.py:107-114 | As written, the setter always raises the error of `reset_data` as written. By then it has already replaced the name parts as above, so a caller that catches the error holds the new parts with the old `data` and every other field unchanged. |
| `PdbLib.SetAtomNameFixed` | my_lib/pdb_lib.py:107-114 | The corrected setter: like the setter, but a short name clears part 2 and the line puts the insertion code in column 27. Every other field is unchanged. |
| `PdbProperties.SetAtomNameFixedReadsBack` | my_lib/pdb_lib.py:103-113 | With the corrected setter, any name of up to four non-blank characters reads back through `atom_name`. |
| `PdbLib.ResetDataAsWritten` | my_lib/pdb_lib.py:122-144 | As written, `reset_data` always raises, because it reads the never-assigned `__residue_seq`. |
| `PdbLayout.IntFieldFits` | my_lib/pdb_lib.py:125-132 | `%5d` and `%4d` of a number that fits are exactly that wide, and trimming gives the decimal digits back. |
| `PdbLayout.GroupWidths` | my_lib/pdb_lib.py:122-144 | For a well-formed record and formatters of widths 8 and 6, each column group of the rebuilt line has its fixed width: 12, 4, 10, 4, 24, 12, and 12 plus the charge. |
| `PdbLayout.LineLayout` | my_lib/pdb_lib.py:122-144 | The rebuilt line is 78 characters plus the charge. The groups sit at columns 1-12, 13-16, 17-26, 27-30, 31-54 and 55-66, with the tail from column 67 on. |
| `PdbLayout.LineReadsBack` | my_lib/pdb_lib.py:122-144 | Every column the constructor reads from a rebuilt line trims back to the record's field. The insertion code is what the first of columns 27-30 holds. |
| `PdbLayout.ReparseFields` | my_lib/pdb_lib.py:34-63 | A line whose columns read back as a well-formed record passes every gate and constructs that record, with the decimals as the reader reads them. |
| `PdbLayout.ChargeBack` | my_lib/pdb_lib.py:63 | Columns 79-80 of a line 78 characters plus the charge long trim back to the charge. |
| `PdbLayout.ReparseLine` | my_lib/pdb_lib.py:122-144 | A rebuilt line passes every gate and constructs the same record, with only the decimals, the insertion code and the two lines differing. |
| `PdbLayout.ResetDataInsertion` | my_lib/pdb_lib.py:133-134 | `PdbLib.ResetData` (`reset_data`, reading `residue_seq`) puts three blanks in columns 27-29 and the insertion code, or a blank, in column 30. |
| `PdbLayout.ReparseResetData` | my_lib/pdb_lib.py:122-144 | `reset_data`, reading `residue_seq`, builds a line the constructor accepts. Every string and integer field reads back except the insertion code. |
| `PdbLayout.InsertionAsWrittenBlank` | my_lib/pdb_lib.py:133-134 | As written, columns 27-30 are three blanks and then the insertion code, or a blank when there is none. So column 27 is blank. |
| `PdbLayout.ICodeLostOnReparse` | my_lib/pdb_lib.py:133-134 | A record with an insertion code, rebuilt and parsed again, has none. |
| `PdbLayout.InsertionFixedReads` | my_lib/pdb_lib.py:51 | In the corrected layout, column 27 trims back to the insertion code. |
| `PdbLayout.ReparseFixed` | my_lib/pdb_lib.py:122-144 | With the insertion code in column 27, parsing the rebuilt line gives the record back, except for the decimals as the reader reads their formatted text and the two lines. |
| `PdbLayout.RenamedWellFormed` | my_lib/pdb_lib.py:107-113 | The corrected setter keeps a record well formed for a name of up to four non-blank characters. |
| `PdbLayout.RenameFixedRoundTrip` | my_lib/pdb_lib.py:107-114 | Rename with the corrected setter, then parse the rebuilt line: the atom name read back is the new name. |
| `PdbLib.ZeroFilled` | my_lib/pdb_lib.py:97 | `%04d` gives digits whose value is the number, exactly four of them when the number is below 10000. |
| `PdbLib.FileNameAsWritten` | my_lib/pdb_lib.py:95-97 | As written, `file_name` always raises, because it reads the never-assigned `__residue_name`. |
| `PdbProperties.FileNameParts` | my_lib/pdb_lib.py:95-97 | The file name `PdbLib.FileName` builds is the residue name, `-`, four digits whose value is the residue number, and `.pdb`. |
| `PdbProperties.FileNameInjective` | my_lib/pdb_lib.py:95-97 | Two residues below 10000 share a file name only when they share both the residue name and the residue number. |
| `PdbLib.OkPositions` | my_lib/pdb_lib.py:149-155 | The positions of the successful results are in range, strictly increasing, and include every successful position. |
| `PdbLib.OksAtOkPositions` | my_lib/pdb_lib.py:149-155 | The `try`/`except` loop keeps one value per successful result, in order: value `k` comes from the `k`-th successful position. |
| `PdbLib.ParseAllInOrder` | my_lib/pdb_lib.py:147-156 | Record `k` is constructed from the `k`-th accepted line, and every accepted line yields one record. |
| `PdbLib.ParseAllSound` | my_lib/pdb_lib.py:147-156 | Every record comes from an input line, and parsing that line again gives the same record. |
| `PdbLib.LoadPdbFile` | my_lib/pdb_lib.py:147-156 | `load_pdb_file` returns at most one record per raw line. Each is well formed, unchanged since parsing, and is what the constructor builds from one of the loaded lines. Every loaded line the constructor accepts contributes its record, so only rejected lines are dropped. |
| `ThreadLib.SplitArray` | my_lib/thread_lib.py:36-74 | An empty list gives `[]` whatever the other arguments. Otherwise it fails exactly when a truthy `num` is below 1, or, without one, when `size` is below 1, with the source's message. `None` and `0` count as no `num`. |
| `ThreadLib.ChunksIndex` | my_lib/thread_lib.py:74 | Chunk `k` is the slice starting at `k * size`, cut at the end of the list. |
| `ThreadLib.ChunksShape` | my_lib/thread_lib.py:74 | The chunks joined give the list back. There are `ceil(len / size)` of them, each of 1 to `size` elements, all but the last full. |
| `ThreadLib.SplitBySize` | my_lib/thread_lib.py:70-74 | Without `num`, the result joined gives the list back. It has `ceil(len / size)` parts, each of 1 to `size` elements, all but the last full. |
| `ThreadLib.EvenSplitBounds` | my_lib/thread_lib.py:59-63 | The `size + 1` slices fit in the list, and what remains is a whole number of `size` slices. |
| `ThreadLib.EvenSplitShape` | my_lib/thread_lib.py:57-64 | The `num` split without order gives `n` slices that joined give the list back. The first `len % n` slices have `len / n + 1` elements and the rest `len / n`. |
| `ThreadLib.SplitByNum` | my_lib/thread_lib.py:54-64 | With `num` and without `b_order`, the result has `min(num, len)` non-empty contiguous parts. Joined, they give the list back, and the longer parts come first, lengths differing by at most one. |
| `ThreadLib.RoundRobinIndex` | my_lib/thread_lib.py:65-68 | List `j` has one element per index with remainder `j`, and element `k` is the input's element `j + k * n`. |
| `ThreadLib.RoundRobinNonEmpty` | my_lib/thread_lib.py:65-68 | With at least `n` elements, every one of the `n` lists gets one. |
| `ThreadLib.RoundRobinList` | my_lib/thread_lib.py:65-68 | List `j` is non-empty and holds the elements at `j`, `j + n`, `j + 2n`, and so on, in their input order. |
| `ThreadLib.RoundRobinElements` | my_lib/thread_lib.py:65-68 | Dealing round robin neither loses nor duplicates an element: the multiset of the lists is that of the input. |
| `ThreadLib.SplitByNumOrdered` | my_lib/thread_lib.py:54-68 | With `num` and `b_order`, the result has `min(num, len)` non-empty lists. Together they hold exactly the input, and list `j` has the elements at `j`, `j + n`, and so on, in order. |
| `ThreadLib.Insert` | my_lib/thread_lib.py:20 | An insertion adds exactly one element: the multiset grows by `x`. |
| `ThreadLib.SortDescending` | my_lib/thread_lib.py:20 | The sort is a permutation of its input. |
| `ThreadLib.InsertDesc` | my_lib/thread_lib.py:20 | Inserting into a non-increasing list keeps it non-increasing. |
| `ThreadLib.SortDescendingSorted` | my_lib/thread_lib.py:20 | The sorted list is non-increasing by key. |
| `ThreadLib.InsertFilter` | my_lib/thread_lib.py:20 | An insertion keeps the order of the elements sharing a key, with `x` ahead of those sharing its key. |
| `ThreadLib.SortDescendingStable` | my_lib/thread_lib.py:20 | The sort is stable: the elements sharing a key come out in their input order, as with Python's `sorted(..., reverse=True)`. |
| `ThreadLib.ArgMin` | my_lib/thread_lib.py:30 | `v.index(min(v))` is a position of the smallest value, and every earlier position holds a larger one. |
| `ThreadLib.Distributed` | my_lib/thread_lib.py:24-32 | The greedy deal always has `part_num` buckets. |
| `ThreadLib.DistributedElements` | my_lib/thread_lib.py:28-32 | The buckets hold exactly the items dealt out, as a multiset. |
| `ThreadLib.DistributedDesc` | my_lib/thread_lib.py:20-32 | Dealing a non-increasing list leaves every bucket non-increasing. |
| `ThreadLib.PlaceBalanced` | my_lib/thread_lib.py:30-32 | Putting an item with key in `0..m` into a smallest bucket keeps all bucket totals within `m` of each other. |
| `ThreadLib.DistributedBalanced` | my_lib/thread_lib.py:28-32 | With keys in `0..m`, the greedy deal keeps any two bucket totals within `m` of each other. |
| `ThreadLib.SumsUpdate` | my_lib/thread_lib.py:31-32 | `arr_value[i] += key` keeps `arr_value` equal to the bucket totals after `ret[i].append(val)`. |
| `ThreadLib.PlaceStep` | my_lib/thread_lib.py:30-31 | One loop pass puts the item into the first bucket with the smallest running total. |
| `ThreadLib.SplitArrayAdvance` | my_lib/thread_lib.py:6-34 | With `part_num` below 2 the input comes back unchanged. Otherwise the loop's buckets are the greedy deal of the input sorted descending. |
| `ThreadLib.SplitArrayAdvanceParts` | my_lib/thread_lib.py:17-34 | With two or more parts, the result has `part_num` buckets that together hold exactly the input, each non-increasing by key. When no key is negative, the totals differ by at most the largest key. |
| `Text.Strip` | my_lib/check_type.py:51 | `strip()` leaves no whitespace at either end, never lengthens the text, and is empty exactly for an all-whitespace text. |
| `Text.Blank` | my_lib/check_type.py:51 | `not (s and s.strip())` holds exactly when every character is whitespace. |
| `Text.StripPadded` | my_lib/pdb_lib.py:101-105 | A trimmed text padded on both sides with whitespace trims back to itself. |
| `Text.StripLjust` | my_lib/pdb_lib.py:124-141 | `ljust` of a trimmed text trims back to it. |
| `Text.StripRjust` | my_lib/pdb_lib.py:129-142 | `rjust` of a trimmed text trims back to it. |
| `Text.Ljust` | my_lib/pdb_lib.py:101 | `ljust(w)` is the text followed by whitespace, `w` long when the text is shorter. |
| `Text.Rjust` | my_lib/pdb_lib.py:101 | `rjust(w)` is whitespace followed by the text, `w` long when the text is shorter. |
| `Text.RStripChars` | my_lib/file_lib.py:284 | `rstrip("\r\n")` is the longest prefix that does not end in `\r` or `\n`; only those characters are removed. |
| `Text.BlankIgnoresLineEnd` | my_lib/file_lib.py:263-264 | A line is blank exactly when it is blank after `rstrip("\r\n")`. |
| `Text.NatToString` | my_lib/pdb_lib.py:125 | `%d` gives a digit string without leading zeros whose value is the number. |
| `Text.NatToStringInjective` | my_lib/pdb_lib.py:125 | Different numbers print differently. |
| `Text.Find` | my_lib/internet_lib.py:164 | `find` returns the first index of the character, or -1 exactly when it is absent. |
| `Text.Split` | my_lib/exception_lib.py:99 | `s.split(c)` has at least one piece, and no piece holds `c`. |
| `Text.JoinSplit` | my_lib/exception_lib.py:99 | Splitting on a character and joining with it gives the text back. |
| `Text.AfterLast` | my_lib/internet_lib.py:162 | The text after the last separator is a suffix without the separator, preceded by the separator when shorter than the whole. |
| `Text.LastSplitIsAfterLast` | my_lib/internet_lib.py:162 | `s.split(c)[-1]` is the text after the last `c`. |
| `CheckType.TypeTests` | my_lib/check_type.py:7-51 | No value passes two of `is_string`, `is_dict` and `is_list`. A blank value other than `None` is a string, and no dict, list or set is blank. |
| `CheckType.IsBlankStr` | my_lib/check_type.py:43-51 | `is_blank_str` holds exactly for `None` and for strings that are empty or all whitespace. Every other value, an empty list included, is not blank. |
| `CheckType.AnyRange` | my_lib/check_type.py:67 | The `any(...)` over the ranges holds exactly when some inclusive range holds the value. |
| `CheckType.IsCjk` | my_lib/check_type.py:54-67 | `is_cjk` holds exactly when the code point lies in one of the eight listed inclusive ranges. |
| `CheckType.CjkDocExamples` | my_lib/check_type.py:58-61 | `is_cjk('㏾')` is true and `is_cjk('﹟')` is false, as the doc comment shows. |
| `ExceptionLib.NewFlaskFatalError` | my_lib/exception_lib.py:50-65 | A falsy message becomes `"Error in computing"` and a falsy status 500. Truthy ones are kept, and the payload is kept. |
| `ExceptionLib.ToDict` | my_lib/exception_lib.py:67-75 | `to_dict` holds the payload's entries plus `"message"`, which overrides a payload entry of that name. Nothing else is in it. |
| `ExceptionLib.Complaints` | my_lib/exception_lib.py:100-110 | The complaint loop of both validators has no complaint exactly when no element satisfies the test. It never has more complaints than elements. |
| `ExceptionLib.ComplaintsAtPositions` | my_lib/exception_lib.py:100-110 | The positions are exactly the indices of the elements that satisfy the test, in increasing order. There is one complaint per position, and complaint `k` is built from the element at position `k` and that index. |
| `ExceptionLib.BlankMessages` | my_lib/exception_lib.py:100-110 | There is no complaint exactly when no element is a non-string or a blank string. |
| `ExceptionLib.CheckStrBlank` | my_lib/exception_lib.py:78-113 | The validator raises exactly for a value that is neither string nor list, a blank string, or a list with a non-string or blank element. An empty list passes. |
| `ExceptionLib.ParamNames` | my_lib/exception_lib.py:98-99 | The names are the comma-separated entries of `param_name`, trimmed. None holds a comma or surrounding whitespace, and the untrimmed entries joined with `,` give `param_name` back. |
| `ExceptionLib.CheckStrBlankNames` | my_lib/exception_lib.py:95-113 | For any list, the list passes exactly when no element offends. Otherwise the message is the `", "`-join of one complaint per offending element, in index order. Each complaint names the trimmed `param_name` entry at the element's own index, or is generic when there is no such entry. |
| `ExceptionLib.NoneMessages` | my_lib/exception_lib.py:131-136 | There is no complaint exactly when no element is `None`. |
| `ExceptionLib.CheckObjectNone` | my_lib/exception_lib.py:116-139 | The validator raises exactly for `None` and for a list or set holding `None`. |
| `ExceptionLib.CheckObjectNoneNames` | my_lib/exception_lib.py:128-139 | For any list, the list passes exactly when it holds no `None`. Otherwise the message is the `", "`-join of one complaint per `None`, in index order. Each complaint names the untrimmed comma-separated entry at the element's own index, or is generic. |
| `InternetLib.LastSegmentIsAfterLast` | my_lib/internet_lib.py:162 | `url.split("/")[-1]` is the text after the last `/`. |
| `InternetLib.BeforeQuery` | my_lib/internet_lib.py:163-164 | Everything from the first `?` on is dropped: the result is the longest prefix without `?`. |
| `InternetLib.Stem` | my_lib/internet_lib.py:162-164 | The segment kept holds neither `/` nor `?`. |
| `InternetLib.WithHtml` | my_lib/internet_lib.py:165-166 | `.html` is appended exactly when `b_html` is set and the name is non-empty and has no dot. |
| `InternetLib.FileNameFromUrl` | my_lib/internet_lib.py:152-170 | The name is never empty, and an empty segment gives `index.html`. Without `%` it is the segment with the `.html` rule. With `%` it is the unquoting of that name, and `index.html` exactly when the unquoting is empty. |
| `InternetLib.PlainNameIsFileName` | my_lib/internet_lib.py:162-170 | Without `%` nothing is unquoted, and the name holds neither `/` nor `?`. |
| `InternetLib.LastSegmentOnly` | my_lib/internet_lib.py:162 | Whatever comes before a `/` does not change the name. |
| `InternetLib.DirectoryUrl` | my_lib/internet_lib.py:162-170 | A URL ending in `/` gives `index.html`, even with `b_html`. |
| `FileLib.ConvertPath` | my_lib/file_lib.py:21-27 | A string argument is stripped, and it fails exactly when it is empty or all whitespace. A `Path` argument always passes. |
| `FileLib.LoadLines` | my_lib/file_lib.py:284-285 | Loading never adds lines, and without the filter it keeps their number. |
| `FileLib.LoadLinesUnfiltered` | my_lib/file_lib.py:284-285 | Without the filter, line `k` is raw line `k` without its trailing `\r`/`\n`. |
| `FileLib.LoadLinesShape` | my_lib/file_lib.py:284-285 | No loaded line ends in `\r` or `\n`, and with the filter none is blank. |
| `FileLib.LoadLinesAppend` | my_lib/file_lib.py:284-285 | The filter works line by line: the lines of two pieces are the lines of the whole, in order. |
| `FileLib.BeforeEof` | my_lib/file_lib.py:259-262 | The lines read are the `readline()` results before the first empty one, which marks the end of the file. |
| `FileLib.LoadLinesStep` | my_lib/file_lib.py:259-266 | Reading one more raw line adds it, without its line end, unless the filter drops it as blank. |
| `FileLib.LoadHead` | my_lib/file_lib.py:256-268 | The head loader returns the first `row_num` lines `load_file_to_list_str` would return for the same file. Blank lines are neither kept nor counted when filtering. |
| `FileLib.Terminated` | my_lib/file_lib.py:320-323 | An emitted item starts with the input item and ends with `newline`. |
| `FileLib.TerminateItems` | my_lib/file_lib.py:316-323 | Items are never added, and without the filter none is dropped. |
| `FileLib.TerminateItemsKeepsAll` | my_lib/file_lib.py:316-323 | Without the filter, item `k` is input item `k`, terminated. |
| `FileLib.TerminateItemsFilters` | my_lib/file_lib.py:317-319 | Filtering blank items is the same as writing only the non-blank ones. |
| `FileLib.TerminateItemsNoBlank` | my_lib/file_lib.py:317-323 | With the filter, no emitted item is blank. |
| `FileLib.WriteItems` | my_lib/file_lib.py:316-327 | Empty input gives nothing, and without the filter the count is kept. The last item has no trailing `\r` or `\n`. |
| `FileLib.WriteItemsEnds` | my_lib/file_lib.py:316-327 | Every written item except the last ends with `newline`. |
| `FileLib.WriteItemsNoBlank` | my_lib/file_lib.py:316-327 | With the filter, no written item is blank, not even the trimmed last one. |
| `FileLib.StemSuffix` | my_lib/file_lib.py:732-734 | Stem and suffix split a name. The suffix is empty or a dot followed by at least one character. |
| `FileLib.CandidateAsWrittenUndotted` | my_lib/file_lib.py:734-737 | When neither the stem nor the separator has a dot, pathlib's evaluation gives the intended `stem + sep + n + suffix`. |
| `FileLib.CandidateAsWrittenDottedStem` | my_lib/file_lib.py:734-737 | For a name `a.b.ext`, every probe as written is `a.ext`, whatever the number. |
| `FileLib.NumberedInjective` | my_lib/file_lib.py:734-737 | Different numbers give different numbered names. |
| `FileLib.CandidateInjective` | my_lib/file_lib.py:734-737 | Different numbers give different intended candidates, so the probe loop ends. |
| `FileLib.FirstFree` | my_lib/file_lib.py:733-737 | The loop stops at a number from 1 whose name does not exist, after every smaller number's name was found to exist. |
| `FileLib.ProbeNumbered` | my_lib/file_lib.py:732-739 | The probe fails exactly when pathlib cannot build the names. Otherwise it returns the first corrected candidate (see Findings), counting from 1, that does not exist. |
| `FileLib.ReCreateNewFilename` | my_lib/file_lib.py:727-739 | A bad path argument fails, and a path that does not exist comes back unchanged. Otherwise the result does not exist and is the first corrected numbered candidate (see Findings) from 1 that does not exist. |
| `FileLib.IsBinaryFile` | my_lib/file_lib.py:679-692 | The chunked scan answers true exactly when the content holds a zero byte. |

## Left out

- File, network and process I/O. The file system is a set of existing paths. A file is its `readlines()` list, its successive `readline()` results or its bytes. Opening, encodings, newline translation on write and `OSError`s are not modelled.
- `__convert_path`: only the strip-and-blank check is modelled. The existence check, parent creation and pathlib's normalisation of the path text are left out, and paths are taken as already normalised `/`-separated strings.
- Python's `float()` and the `8.3f`/`6.2f` formats. The parser takes the decimal reader as a parameter, and the serialiser takes two formatters whose only property is their width, 8 and 6. Rounding is not modelled, so a round trip returns each decimal as the reader reads its formatted text.
- Unicode: whitespace and digits are their ASCII members only. Python's `strip` and `isdigit` also accept other Unicode characters.
- The iteration order of a Python `set`: a `Set` value carries its items in the order iteration would visit them.
- `split_array_advance`'s key: `x[item_name]` is a function `T -> int`. A missing key (`KeyError`) and non-integer values are not modelled.
- `split_array`'s `num` is `None` or an integer. Other truthy objects are not modelled.
- The validators' `param_name` is `None` or a string. The message for a non-string `param_name` is not modelled.
- `FlaskFatalError`: the base `Exception.__init__` is not modelled, and `HTTPStatus` members are plain integers.
- `ExceptionLib.NewFlaskFatalError` and `ExceptionLib.ToDict` take the payload to be `None` or a dict with string keys. `dict(self.payload or ())` also accepts any iterable of key-value pairs, keys of other types and a string payload as the docstring suggests. The `ValueError` or `TypeError` it raises for a payload that is not such an iterable is not modelled.
- `urllib.parse.unquote` is an uninterpreted parameter of `get_file_name_from_url`.
- `write_list_str_to_file` with `newline=None` is not modelled. `str.endswith(None)` would raise there.
- `load_file_to_list_str_n_head` with a negative `row_num` returns no lines. The model states this through `Take`, not as a separate property.
- `PdbRecord.__str__`/`__repr__` only return `data` and are not modelled separately.
- `PdbLayout.LineLayout`, `PdbLayout.GroupWidths`, `PdbLayout.ReparseResetData`, `PdbLayout.ReparseFixed` and the other round-trip lemmas assume formatters of exactly width 8 and 6. Python's `8.3f` is wider for values of 10000 or more and of -1000 or less. `6.2f` is wider for values of 1000 or more and of -100 or less. Records with such coordinates, occupancies or temperature factors shift every later column, and the layout and round-trip lemmas say nothing about them.
- `FileLib.ReCreateNewFilename` and `FileLib.ProbeNumbered` probe the corrected candidate names. For a dotted stem the code as written probes other names, and may loop forever (see Findings). That loop is modelled only through `FileLib.CandidateAsWritten`.
- `PdbLib.SetAtomName` and `PdbLib.SetAtomNameFixed` accept names of any length. Their round-trip lemmas are stated only for names of up to four characters without blanks: a longer name shifts every later column.
- Concurrency (`OtherLocalThread`, `thread_execute`, `multi_process_execute`), the JSON encoder, zip, logging and listing helpers, and the remaining modules of the package are outside this model.

## Findings

| source | as written | input that shows it | evidently intended | confidence | as-written member | corrected member |
|---|---|---|---|---|---|---|
| my_lib/pdb_lib.py:81-83 | `is_remove_item` reads `self.__residue_name`. Name mangling makes that `_PdbRecord__residue_name`, which nothing assigns, so the property raises `AttributeError` unless the element is in the remove table. | a water line, residue `HOH`, element `O` | true for water, reading `residue_name` | not executed | `PdbProperties.WaterRaisesAsWritten` | `PdbProperties.RemoveItemColumns` |
| my_lib/pdb_lib.py:89-93 | `is_ion_need_change_residue_name` reads the same missing attribute whenever the element is an ion. | any line with element `NA` | ion and residue name different from the element | not executed | `PdbProperties.SodiumRaisesAsWritten` | `PdbProperties.IonRenameColumns` |
| my_lib/pdb_lib.py:95-97 | `file_name` reads the missing `__residue_name` and always raises. | any constructed record | residue name, dash, zero-filled residue number, `.pdb` | not executed | `PdbLib.FileNameAsWritten` | `PdbProperties.FileNameInjective` |
| my_lib/pdb_lib.py:132 | `reset_data` reads the never-assigned `__residue_seq`, so it, and the `atom_name` setter that calls it (`PdbLib.SetAtomNameAsWritten`), always raise. | any constructed record | the residue number the constructor stores in `residue_seq` | not executed | `PdbLib.ResetDataAsWritten` | `PdbLayout.ReparseResetData` |
| my_lib/pdb_lib.py:133-134 | The three blanks come before the insertion code, which lands in column 30. The constructor reads it from column 27. | a record with insertion code `A`, rebuilt and parsed again | insertion code in column 27, blanks in 28-30 | not executed | `PdbLayout.ICodeLostOnReparse` | `PdbLayout.ReparseFixed` |
| my_lib/pdb_lib.py:109-110 | A name of at most two characters replaces part 1 only, keeping the old part 2. | renaming `HG21` to `O` gives `O21` | the atom name becomes the given name | not executed | `PdbProperties.RenameHg21ToO` | `PdbLayout.RenameFixedRoundTrip` |
| my_lib/file_lib.py:734-737 | `with_suffix` is applied to the numbered name, whose own suffix, for a dotted stem, starts at the stem's last dot. | `a.b.txt` existing: every probe is `a.txt`, so the loop never ends if `a.txt` exists too, and returns `a.txt` otherwise | `a.b-1.txt`, `a.b-2.txt`, ... | not executed | `FileLib.CandidateAsWrittenDottedStem` | `FileLib.CandidateInjective` |
