# IN3110 course assignments: a verified model of the core logic

This project models four pieces of logic from a set of Python course
assignments, and proves properties about them:

- **Image filters.** The `instapy` image filters (assignment 3) turn an
  H x W x 3 `uint8` image into greyscale or sepia. The model covers all three
  backends:
  - a reference backend of per-pixel loops;
  - a numba backend that runs the same loops;
  - a numpy backend of whole-array expressions. Its greyscale rounds instead of
    truncating. Its sepia takes a blend factor `k` and uses the matrix
    `k * S + (1 - k) * I`, then clips the result.
- **Pollution-data utilities** (assignment 2):
  - recognising an original gas file (`is_gas_csv`);
  - merging a parent name into a basename;
  - counting a recursive directory listing (`get_diagnostics`);
  - deriving the per-gas directory, and creating it if needed
    (`get_dest_dir_from_csv_file`).
- **The anniversary scraper's text handling** (assignment 4):
  - keeping the anniversary paragraphs of a month;
  - splitting each anniversary into (date, event) rows. A `;` splits unless
    it sits inside parentheses.
- **The Olympic medal-leader rule** (assignment 4). It returns the leading
  country, two tied leaders as "A/B", or "None".

## How the model is built

- **Images.**
  - An image is an `array2<Rgb>`, where `Rgb` holds three bytes. So "exactly
    three channels" is a fact of the type.
  - The loop backends are methods with nested `for` loops. Each fills a fresh
    output array.
  - The numpy backend is made of pure functions over image values
    (`seq<seq<Rgb>>`).
- **Arithmetic.**
  - Decimal coefficients are exact reals.
  - Python's `int()` is truncation toward zero (`PyNumeric.Int`).
  - `astype(np.uint8)` is modelled as reduction modulo 256 (`PyNumeric.Uint8`).
    numpy leaves a float-to-uint8 cast of an out-of-range value platform
    dependent. The model proves that every cast in these filters receives an
    integral value in [0, 255], where the cast is the identity.
  - `np.round` rounds half to even (`PyNumeric.RoundHalfEven`).
- **Paths.** pathlib's pure paths (`name`, `suffix`, `stem`, `parent`, `/`)
  are string functions on '/'-separated components (module `PurePath`).
- **The file system.**
  - Besides the path argument, `get_diagnostics` gets two inputs: the status of its root and the
    `rglob('*')` listing, as a sequence of entries.
  - `get_dest_dir_from_csv_file` works on a `FileSystem` object. It holds the set
    of existing directories and the set of existing files. Creating a
    directory adds to the first set.
- **The other pieces.** The anniversary and Olympic functions work on
  sequences. A pandas DataFrame becomes a column list and a sequence of rows.
  A results dict becomes the sequence of its items.

## Model

| member | source | states |
|---|---|---|
| ColorTransform.SepiaMatrix | assignment3/in3110_instapy/python_filters.py:46-48 | the sepia coefficients, row c giving output channel c; the same matrix as numpy_filters.py:47-51 |
| ColorTransform.Luma | assignment3/in3110_instapy/python_filters.py:24 | the weighted channel sum r * 0.21 + g * 0.72 + b * 0.07, also summed at numpy_filters.py:19 |
| ColorTransform.Apply | assignment3/in3110_instapy/python_filters.py:46-48 | one matrix row applied to (r, g, b), as in each sepia line and per pixel in the einsum at numpy_filters.py:58 |
| PyNumeric.Int | assignment3/in3110_instapy/python_filters.py:24 | `int()` of a float lies within one of it, toward zero: it is the floor for non-negative values |
| PyNumeric.Uint8 | assignment3/in3110_instapy/python_filters.py:27 | the uint8 cast leaves values in [0, 255] alone, and every cast the filters make is proved to receive such a value (GrayIsTruncatedLuma, RoundedGrayBracket, ClipCastIsCappedTruncation) |
| PyNumeric.Clip | assignment3/in3110_instapy/numpy_filters.py:61 | `np.clip` gives a value in [lo, hi]: the argument when inside, the nearer bound when outside |
| PyNumeric.RoundHalfEven | assignment3/in3110_instapy/numpy_filters.py:19 | `np.round` gives an integer within 0.5 of the argument, and an even one on a tie |
| PyNumeric.Min | assignment3/in3110_instapy/python_filters.py:49 | `min` of two ints is one of them and is no larger than either |
| PythonFilters.GrayLevel | assignment3/in3110_instapy/python_filters.py:24 | the grey level int(r * 0.21 + g * 0.72 + b * 0.07) stored in the float64 buffer |
| PythonFilters.SepiaChannel | assignment3/in3110_instapy/python_filters.py:46-49 | sepia channel c: min(255, int(row c . (r, g, b))) |
| PythonFilters.GrayOf | assignment3/in3110_instapy/python_filters.py:24-27 | one grey value: int(0.21r + 0.72g + 0.07b) cast to uint8; its meaning is proved in GrayIsTruncatedLuma |
| PythonFilters.SepiaOf | assignment3/in3110_instapy/python_filters.py:46-49 | one sepia pixel: min(255, int(row . (r, g, b))) for each row of the sepia matrix; its meaning is proved in SepiaIsCappedTruncation and SepiaOrdered |
| PythonFilters.GrayImage | assignment3/in3110_instapy/python_filters.py:18-28 | the image value python_color2gray returns: GrayOf of every pixel; the loop methods are proved equal to it |
| PythonFilters.SepiaImage | assignment3/in3110_instapy/python_filters.py:39-52 | the image value python_color2sepia returns: SepiaOf of every pixel; the loop methods are proved equal to it |
| PythonFilters.GrayIsTruncatedLuma | assignment3/in3110_instapy/python_filters.py:24-27 | each grey value is the floor of 0.21r + 0.72g + 0.07b, equals (21r + 72g + 7b) div 100, and lies in [0, 255], so the uint8 cast never wraps |
| PythonFilters.PythonColor2Gray | assignment3/in3110_instapy/python_filters.py:18-28 | returns a fresh (rows, cols) array, with the channel axis dropped, holding the grey value of every input pixel |
| PythonFilters.SepiaIsCappedTruncation | assignment3/in3110_instapy/python_filters.py:46-49 | each sepia channel is at most its weighted sum; it is either 255 or greater than the sum minus one |
| PythonFilters.SepiaOrdered | assignment3/in3110_instapy/python_filters.py:46-49 | every sepia pixel has red >= green >= blue |
| PythonFilters.PythonColor2Sepia | assignment3/in3110_instapy/python_filters.py:39-52 | returns a fresh array of the input's shape, holding the sepia pixel of every input pixel; the input is not written |
| PythonFilters.BlackStaysBlack | assignment3/test/test_python.py:18-44 | a black pixel becomes grey 0 and sepia (0, 0, 0) |
| PythonFilters.RecordedGray | assignment3/test/test_python.py:18-23 | the recorded grey values of the 3 x 3 test image; white is 255 (the test records 254, see Left out) |
| PythonFilters.RecordedSepiaPrimaries | assignment3/test/test_python.py:42 | red, green and blue become (100, 88, 69), (196, 174, 136) and (48, 42, 33) |
| PythonFilters.RecordedSepiaSecondaries | assignment3/test/test_python.py:43 | yellow, cyan and magenta become (255, 255, 205), (244, 217, 169) and (148, 131, 102) |
| PythonFilters.RecordedSepiaGreys | assignment3/test/test_python.py:44 | white, mid grey and black become (255, 255, 238), (172, 153, 119) and (0, 0, 0) |
| PythonFilters.RecordedSepia | assignment3/test/test_python.py:41-49 | the sepia image of the 3 x 3 test image is the recorded one, cell for cell |
| NumbaFilters.ConvertToNumpy | assignment3/in3110_instapy/numba_filters.py:8-12 | an array argument is returned unchanged; the PIL branch is left out |
| NumbaFilters.NumbaColor2Gray | assignment3/in3110_instapy/numba_filters.py:33-46 | returns a fresh (rows, cols) array equal to the reference backend's grey image |
| NumbaFilters.NumbaColor2Sepia | assignment3/in3110_instapy/numba_filters.py:57-68 | returns a fresh array of the input's shape, equal to the reference backend's sepia image of the input (also the recorded values at assignment3/test/test_numba.py:20-28) |
| NumbaFilters.NumbaColor2SepiaWrapper | assignment3/in3110_instapy/numba_filters.py:14-17 | for an array argument the wrapper gives the kernel's result for that array |
| NumbaFilters.NumbaColor2GrayWrapper | assignment3/in3110_instapy/numba_filters.py:19-21 | for an array argument the wrapper gives the kernel's result for that array |
| NumpyFilters.RoundedGrayOf | assignment3/in3110_instapy/numpy_filters.py:19-23 | one grey value: np.round of the weighted sum, cast to uint8; its meaning is proved in RoundedGrayBracket |
| NumpyFilters.RoundedGrayBracket | assignment3/in3110_instapy/numpy_filters.py:19 | the rounded grey value is the nearest integer to the weighted sum; it needs no wrap-around, and it is the truncated reference value or one more |
| NumpyFilters.NumpyColor2Gray | assignment3/in3110_instapy/numpy_filters.py:15-23 | the output has shape (rows, cols); every cell is within 0.5 of its pixel's weighted sum and is the reference value or one more |
| NumpyFilters.RecordedRoundedGrayPrimaries | assignment3/test/test_numpy.py:17 | red, green and blue round to 54, 184 and 18 |
| NumpyFilters.RecordedRoundedGraySecondaries | assignment3/test/test_numpy.py:18 | yellow, cyan and magenta round to 237, 201 and 71 |
| NumpyFilters.RecordedRoundedGrayGreys | assignment3/test/test_numpy.py:19 | white, mid grey and black round to 255, 128 and 0 |
| NumpyFilters.RecordedRoundedGray | assignment3/test/test_numpy.py:16-23 | the rounded grey image of the test image is the recorded one |
| NumpyFilters.Blend | assignment3/in3110_instapy/numpy_filters.py:55 | the matrix k * S + (1 - k) * I, entry by entry; its endpoints are proved in BlendEndpoints |
| NumpyFilters.BlendEndpoints | assignment3/in3110_instapy/numpy_filters.py:53-55 | the blended matrix is exactly the sepia matrix at k = 1 and the identity at k = 0 |
| NumpyFilters.ClipCast | assignment3/in3110_instapy/numpy_filters.py:61 | one channel of the matrix product, clipped into [0, 255] and cast to uint8; proved in ClipCastIsCappedTruncation |
| NumpyFilters.BlendPixel | assignment3/in3110_instapy/numpy_filters.py:58-61 | one output pixel: each row of the blended matrix applied to (r, g, b), then clipped and cast |
| NumpyFilters.ClipCastIsCappedTruncation | assignment3/in3110_instapy/numpy_filters.py:61 | clip-then-cast never wraps; for a non-negative sum it equals min(255, int(sum)) |
| NumpyFilters.NumpyColor2Sepia | assignment3/in3110_instapy/numpy_filters.py:39-61 | ValueError exactly when k lies outside [0, 1], before any pixel is computed; otherwise an image of the input's shape |
| NumpyFilters.FullSepiaMatchesReference | assignment3/in3110_instapy/numpy_filters.py:47-61 | at k = 1 the whole-array sepia equals the reference backend's sepia, pixel for pixel (the comparison of assignment3/test/test_numpy.py:41-47) |
| NumpyFilters.ZeroSepiaIsIdentity | assignment3/in3110_instapy/numpy_filters.py:53-61 | at k = 0 the output equals the input |
| Utilities.ToPath | assignment2/analytic_tools/utilities.py:140-144 | `Path(arg)` gives a TypeError exactly for an argument that is neither a str nor a Path; a Path is kept |
| Utilities.IsGasCsv | assignment2/analytic_tools/utilities.py:140-154 | TypeError for a non-path; ValueError exactly when the suffix is not ".csv"; otherwise a result, true exactly when the upper-cased stem is CO2, CH4, N2O, SF6 or H2 |
| Utilities.GasFileAccepted | assignment2/analytic_tools/utilities.py:146-154 | a file "<stem>.csv" in any directory is accepted when the upper-cased stem is a gas, in any letter case |
| Utilities.AcceptedFileIsGasFile | assignment2/analytic_tools/utilities.py:146-154 | conversely, an accepted path is named "<stem>.csv", and its upper-cased stem is a gas |
| Utilities.CsvFileByStem | assignment2/analytic_tools/utilities.py:146-154 | for a file named "<stem>.csv" the answer is whether the upper-cased stem is a gas |
| Utilities.LowerCaseGasFileAccepted | assignment2/tests/test_utilities.py:87 | a path named "co2.csv" is a gas file |
| Utilities.PrefixedGasFileRejected | assignment2/tests/test_utilities.py:100 | a path named "123_CO2.csv" is not a gas file |
| Utilities.TextFileRaises | assignment2/tests/test_utilities.py:90-91 | a path named "CO2.txt" raises ValueError |
| Utilities.NonFileArgumentsRaise | assignment2/tests/test_utilities.py:114-119 | a directory path without a suffix and the empty string raise ValueError; a non-path raises TypeError |
| Utilities.MergeParentAndBasename | assignment2/analytic_tools/utilities.py:225-226 | a non-path argument raises TypeError |
| Utilities.MergeJoinsLastTwoComponents | assignment2/analytic_tools/utilities.py:228-235 | the merged name is the last two components joined by "_", and fewer than two components raise ValueError |
| Utilities.MergeOfRenderedPath | assignment2/analytic_tools/utilities.py:228-235 | the same holds for the string form of a path of two or more components |
| Utilities.RenderThreeComponents | assignment2/tests/test_utilities.py:202 | an absolute path of three components renders as "/a/b/c" |
| Utilities.NestedFileRendered | assignment2/tests/test_utilities.py:202 | the three-component absolute path is rendered "/User/documents/myfile.txt", the string the test passes |
| Utilities.NestedFileMerged | assignment2/tests/test_utilities.py:202 | "/User/documents/myfile.txt" merges to "documents_myfile.txt" |
| Utilities.NestedDirectoryMerged | assignment2/tests/test_utilities.py:203 | "some_dir/some_sub_dir" merges to "some_dir_some_sub_dir" |
| Utilities.NestedDirectoryRendered | assignment2/tests/test_utilities.py:203 | the two-component relative path is rendered "some_dir/some_sub_dir" |
| Utilities.ParentlessPathRaises | assignment2/tests/test_utilities.py:210-212 | "no_parent.txt" raises ValueError and a non-path raises TypeError |
| Utilities.ParentlessPathRendered | assignment2/tests/test_utilities.py:212 | the one-component relative path is rendered "no_parent.txt" |
| Utilities.Tally | assignment2/analytic_tools/utilities.py:44-62 | the counters after one more entry: a directory adds a subdirectory, a regular file a file and one suffix counter, anything else nothing; TallyByKind states it per counter |
| Utilities.Diagnose | assignment2/analytic_tools/utilities.py:20-62 | the counters after the whole listing, entry by entry from all zeros; DiagnoseCountsEntries proves what each counter counts |
| Utilities.GetDiagnostics | assignment2/analytic_tools/utilities.py:20-64 | TypeError for a non-path; NotADirectoryError for a missing root or a root that is not a directory, before any counting; otherwise the counters of the listing, entry by entry |
| Utilities.TallyByKind | assignment2/analytic_tools/utilities.py:46-62 | one entry adds one to the counter of each kind it is of, and nothing to the others |
| Utilities.FilesArePartitioned | assignment2/analytic_tools/utilities.py:48-62 | files = csv + txt + npy + md + other, for every listing |
| Utilities.DiagnoseCountsEntries | assignment2/analytic_tools/utilities.py:20-62 | each counter starts at 0 and ends as the number of entries of its kind: directories, files, and files of each suffix |
| Utilities.RecordedTree | assignment2/tests/test_utilities.py:35-46 | a listing of 4 directories, 8 ".csv" files and 2 ".npy" files, with no other files, gives 10/4/8/0/2/0/0 |
| Utilities.DestDirWith | assignment2/analytic_tools/utilities.py:174-204 | the checks of get_dest_dir_from_csv_file in the code's order against a given gas list, and the derived path parent / "gas_<STEM>" |
| Utilities.DestDirAsWritten | assignment2/analytic_tools/utilities.py:174-204 | DestDirWith with the list of line 194 as written, "NO2" included; the as-written half of the finding |
| Utilities.DestDir | assignment2/analytic_tools/utilities.py:174-204 | DestDirWith with the corrected list, the one of line 152; the corrected half of the finding |
| Utilities.DestName | assignment2/analytic_tools/utilities.py:201 | the directory name is a valid component starting with "gas_" |
| Utilities.CsvFileDestDirByStem | assignment2/analytic_tools/utilities.py:191-196 | for an existing parent directory and an existing file "<stem>.csv", the call succeeds exactly when the upper-cased stem is on its gas list |
| Utilities.GasListsDiffer | assignment2/analytic_tools/utilities.py:194 | this gas list has "NO2" where the list of is_gas_csv at line 152 has "N2O" |
| Utilities.AsWrittenRefusesN2O | assignment2/analytic_tools/utilities.py:191-196 | as written, an existing "N2O.csv" is a gas file by is_gas_csv, yet the call raises ValueError |
| Utilities.AsWrittenAcceptsNO2 | assignment2/analytic_tools/utilities.py:191-196 | as written, an existing "NO2.csv" is no gas file by is_gas_csv, yet the call succeeds |
| Utilities.DestDirAcceptsExactlyGasFiles | assignment2/analytic_tools/utilities.py:174-204 | with the corrected list, success exactly for an existing parent directory and an existing file that is_gas_csv accepts; the result is "gas_<STEM>" under the parent |
| Utilities.DestDirErrors | assignment2/analytic_tools/utilities.py:179-196 | for either gas list, the error raised, by the order of the checks: TypeError; NotADirectoryError for a missing or non-directory parent; ValueError for a missing file, and under a parent directory for anything but an existing ".csv" file whose upper-cased stem is on the list. With the corrected list, ValueError for every file is_gas_csv does not accept |
| Utilities.DestDirIdempotent | assignment2/analytic_tools/utilities.py:204-211 | for either gas list, once the directory exists a repeat call returns the same path and creates nothing |
| Utilities.FileSystem.CheckedDestDir | assignment2/analytic_tools/utilities.py:174-204 | the checks against the given gas list, run on the current file system, give DestDirWith's outcome and change nothing |
| Utilities.FileSystem.GetDestDirFromCsvFile | assignment2/analytic_tools/utilities.py:174-211 | against the given gas list (the code's "NO2" list of line 194 as written, or the corrected one): returns DestDirWith's outcome for the old paths and creates the directory only when the path does not exist yet; files are untouched and no path becomes both a file and a directory |
| Strings.Find | assignment4/find_anniversaries.py:96 | the first index holding the character, with none before it; -1 exactly when it does not occur |
| Strings.RFind | assignment2/analytic_tools/utilities.py:146 | the last index holding the character, with none after it; -1 exactly when it does not occur (the suffix's dot) |
| Strings.Split | assignment2/analytic_tools/utilities.py:30 | str.split for one character: at least one piece, and no piece holds the separator |
| Strings.SplitJoin | assignment2/analytic_tools/utilities.py:30 | splitting the join of separator-free pieces gives back the pieces |
| Strings.Strip | assignment4/find_anniversaries.py:97-100 | str.strip(): whitespace removed from both ends; proved in StripTrimsBothEnds, StripIsInfix and StripIdempotent |
| Strings.Upper | assignment2/analytic_tools/utilities.py:154 | str.upper() on ASCII letters: the same length, each character upper-cased |
| Strings.UpperWithoutLowerCase | assignment2/analytic_tools/utilities.py:154 | a string without lower-case ASCII letters is unchanged by upper-casing |
| Strings.Replace | assignment2/analytic_tools/utilities.py:234 | replacing one character by another keeps the length, turns every occurrence of the replaced one into the new one and keeps every other character, so none of the replaced is left, and nothing changes when it does not occur |
| Strings.StripTrimsBothEnds | assignment4/find_anniversaries.py:100 | a stripped string is empty, or neither starts nor ends with whitespace |
| Strings.StripIsInfix | assignment4/find_anniversaries.py:100 | the stripped string is the piece between the leading and the trailing whitespace, and all that is removed is whitespace |
| Strings.StripIdempotent | assignment4/find_anniversaries.py:100 | stripping twice is stripping once |
| PurePath.Parse | assignment2/analytic_tools/utilities.py:30 | Path(s): absolute exactly when s starts with '/'; the components are the non-empty pieces other than "." |
| PurePath.Components | assignment2/analytic_tools/utilities.py:30 | the kept pieces are valid components, and no more than the pieces |
| PurePath.ComponentsKeepValidParts | assignment2/analytic_tools/utilities.py:30 | valid components are kept unchanged |
| PurePath.ParseRender | assignment2/analytic_tools/utilities.py:228 | Path(str(p)) == p for every path |
| PurePath.Render | assignment2/analytic_tools/utilities.py:228 | str(p): '/' followed by the components joined by '/' for an absolute path, "." for an empty relative one; inverted by Parse (ParseRender), and the strings the tests at assignment2/tests/test_utilities.py:202-212 pass |
| PurePath.Name | assignment2/analytic_tools/utilities.py:230-234 | PurePath.name: free of '/', and empty exactly for a path without components |
| PurePath.Parent | assignment2/analytic_tools/utilities.py:230 | PurePath.parent: the same root, itself for no components, otherwise the path whose components plus the name are the path's |
| PurePath.SuffixDot | assignment2/analytic_tools/utilities.py:146 | -1, or the index of the last dot, which is neither first nor last |
| PurePath.Suffix | assignment2/analytic_tools/utilities.py:146 | PurePath.suffix: the name from its last dot when that dot is neither first nor last, otherwise empty (StemSuffixSplitName, StemOfDottedName) |
| PurePath.Stem | assignment2/analytic_tools/utilities.py:154 | PurePath.stem: the name without its suffix (StemSuffixSplitName, StemOfDottedName) |
| PurePath.StemSuffixSplitName | assignment2/analytic_tools/utilities.py:146-154 | stem followed by suffix is the name, and a suffix is empty or a dot and at least one character, none of them a dot |
| PurePath.StemOfDottedName | assignment2/analytic_tools/utilities.py:146-154 | the name "stem.ext" has that stem and the suffix ".ext" |
| PurePath.JoinName | assignment2/analytic_tools/utilities.py:204 | p / name has that name and the parent p |
| Anniversaries.Partition | assignment4/find_anniversaries.py:96 | `partition(':')` gives (s, "") without a ':'; otherwise the text before the first ':' and after it, which rebuild s |
| Anniversaries.FindParen | assignment4/find_anniversaries.py:99 | the index of the first parenthesis character, or -1 when there is none; nothing before it is a parenthesis |
| Anniversaries.IsSplitPoint | assignment4/find_anniversaries.py:99 | a ';' splits exactly when the lookahead (?![^()]*\)) holds: the next parenthesis after it is '(' or there is none |
| Anniversaries.SplitEvents | assignment4/find_anniversaries.py:99 | re.split at the split points, always at least one piece; characterised by the lemmas below |
| Anniversaries.SplitPointShift | assignment4/find_anniversaries.py:99 | whether a ';' splits does not depend on the text before it |
| Anniversaries.SplitEventsWithoutSplitPoint | assignment4/find_anniversaries.py:99 | a string without a split point is a single event |
| Anniversaries.SplitEventsAtFirstSplitPoint | assignment4/find_anniversaries.py:99 | the string splits at its first split point |
| Anniversaries.ParenthesisedSemicolonStays | assignment4/find_anniversaries.py:99 | a ';' followed by a ')' with no parenthesis in between never splits |
| Anniversaries.JoinSplitEvents | assignment4/find_anniversaries.py:99 | joining the events with ';' gives back the string, so splitting loses no text |
| Anniversaries.SplitEventsWithoutParens | assignment4/find_anniversaries.py:99 | without parentheses the split is exactly `str.split(';')` |
| Anniversaries.StripAll | assignment4/find_anniversaries.py:100 | each event stripped, in order |
| Anniversaries.EventRows | assignment4/find_anniversaries.py:99-102 | one row (date, event) per non-empty event, in order; its meaning is proved in EventRowsMembership and EventRowsAppend |
| Anniversaries.AnnRows | assignment4/find_anniversaries.py:96-102 | the rows of one string: the stripped text before the first ':' as date, and the rows of the stripped events after it |
| Anniversaries.AnnTable | assignment4/find_anniversaries.py:95-102 | the rows of every string, string after string |
| Anniversaries.AppendEventRows | assignment4/find_anniversaries.py:99-102 | the inner loop appends one (date, event) row per stripped event that is not empty, in order |
| Anniversaries.AnniversaryListToDf | assignment4/find_anniversaries.py:93-109 | the columns are exactly "Date" and "Event"; the rows are those of every string in list order |
| Anniversaries.EventRowsMembership | assignment4/find_anniversaries.py:99-102 | a row belongs to a date's rows exactly when it has that date and a non-empty one of the events |
| Anniversaries.EventRowsStripped | assignment4/find_anniversaries.py:100-102 | every row's event is one of the pieces stripped, and is non-empty and already stripped |
| Anniversaries.AnnRowsShape | assignment4/find_anniversaries.py:96-102 | every row comes from a string with a ':'; its date is the stripped text before the first ':', and its event is stripped and non-empty |
| Anniversaries.NoColonNoRows | assignment4/find_anniversaries.py:96-102 | a string without ':' produces no rows |
| Anniversaries.AnnTableAppend | assignment4/find_anniversaries.py:95-102 | rows keep the order of the strings: the table of a + b is a's rows, then b's |
| Anniversaries.EventRowsAppend | assignment4/find_anniversaries.py:99-102 | rows keep the order of the events within one string |
| Strings.StartsWith | assignment4/find_anniversaries.py:71 | str.startswith: the prefix is no longer than the string and equals its first characters; also the test at line 74 |
| Anniversaries.IsAnniversary | assignment4/find_anniversaries.py:70-74 | the keep rule: the first link's href starts with "/wiki/<month>_" and the paragraph text starts with the link's text |
| Anniversaries.KeptTexts | assignment4/find_anniversaries.py:67-77 | the texts of the paragraphs the keep rule accepts, in order |
| Anniversaries.ExtractAnniversaries | assignment4/find_anniversaries.py:67-77 | the loop returns KeptTexts of the paragraphs: the texts that pass the keep rule, in order |
| Anniversaries.KeptTextsMembership | assignment4/find_anniversaries.py:69-75 | a text is kept exactly when some paragraph with that text has a first link to "/wiki/<month>_..." and starts with that link's text |
| Anniversaries.KeptTextsAppend | assignment4/find_anniversaries.py:69-75 | the kept texts keep paragraph order |
| Olympics.MedalCounts | assignment4/fetch_olympic_statistics.py:215 | KeyError exactly when some country lacks the medal; otherwise each country's count for it, in order |
| Olympics.MaxCount | assignment4/fetch_olympic_statistics.py:216 | the maximum is no smaller than any count and is one of them |
| Olympics.FindBestCountryInSport | assignment4/fetch_olympic_statistics.py:208-226 | ValueError for a medal other than Gold, Silver or Bronze, before any count is read; KeyError for a missing medal; ValueError for empty results; a result exactly otherwise |
| Olympics.Leaders | assignment4/fetch_olympic_statistics.py:217 | the countries whose count equals the given one, in order; proved in LeadersMembership, LeadersAppend and LeadersAreMaximal |
| Olympics.Best | assignment4/fetch_olympic_statistics.py:219-224 | one leader by name, two as "A/B", otherwise "None" |
| Olympics.LeadersMembership | assignment4/fetch_olympic_statistics.py:217 | a country is listed exactly when it has a count equal to the chosen one |
| Olympics.LeadersAppend | assignment4/fetch_olympic_statistics.py:217 | the leaders keep the order of the results |
| Olympics.NoLeaders | assignment4/fetch_olympic_statistics.py:217 | without that count nobody is listed |
| Olympics.LeadersAreMaximal | assignment4/fetch_olympic_statistics.py:215-217 | the maximum is at least every country's count, and the listed countries are exactly those that reach it |
| Olympics.OneLeader | assignment4/fetch_olympic_statistics.py:217 | a single index with the count lists exactly that country |
| Olympics.TwoLeaders | assignment4/fetch_olympic_statistics.py:217 | two indices with the count list those two countries, in order |
| Olympics.ThreeLeaders | assignment4/fetch_olympic_statistics.py:217 | three indices with the count list at least three countries |
| Olympics.SingleLeaderNamed | assignment4/fetch_olympic_statistics.py:219-220 | one country strictly ahead of all others is returned by name |
| Olympics.TwoLeadersJoined | assignment4/fetch_olympic_statistics.py:221-222 | two tied leaders are returned as "A/B", in the order of the results |
| Olympics.ManyLeadersGiveNone | assignment4/fetch_olympic_statistics.py:223-224 | three or more tied leaders give "None" |

## Left out

- Binary floating point. All arithmetic is exact. Four effects of floats are
  therefore not modelled:
  - The recorded white grey value 254 (assignment3/test/test_python.py:20)
    comes from binary rounding in the float expression
    255 * 0.21 + 255 * 0.72 + 255 * 0.07 of python_filters.py:24, which falls
    just below 255 before `int()` truncates it. The model gives 255.
  - The `float32` conversion in `numpy_color2gray` is not modelled.
  - Floating-point ties in `np.round` are not modelled. Ties are rounded half
    to even in exact arithmetic.
  - A NaN `k` is not modelled: `k` is a real.
- `numpy_color2gray` rounds (assignment3/in3110_instapy/numpy_filters.py:19)
  where the loop backends truncate, and assignment3/test/test_numpy.py:16-23
  expects the rounded values (54, 184, 18, ...). The model follows the code.
  It proves the bracket between the two backends (NumpyFilters.NumpyColor2Gray)
  rather than equality.
- NumbaFilters.ConvertToNumpy: only the array branch is modelled. Converting a
  PIL image, image files, `cli.py` and `io` are left out because they are I/O.
- `@jit` compilation is left out. The numba kernels are ordinary methods.
- `timing.py` is left out. It reads the wall clock and averages floats.
- Images always have three channels: `Rgb` is the channel axis. Arrays of
  another channel count are not modelled. The loop backends would reject
  them when unpacking `r, g, b`, and so would the sepia einsum with its
  3 x 3 matrix. `numpy_color2gray`, however, slices channels 0 to 2
  (numpy_filters.py:19). It accepts an (H, W, 4) array and ignores the
  fourth channel, which the model does not capture.
- `str.upper()` maps ASCII letters only. Other Unicode case mappings are not
  modelled.
- pathlib parsing: a leading "//" is treated like "/". On a real system,
  whether `exists()` and `is_dir()` hold comes from the file system. Here it
  comes from the given root status, entry list and path sets.
- `rglob`'s own traversal order and symlink handling are left out. The listing
  is an input.
- `display_diagnostics` and `display_directory_tree` are left out: they print.
  `delete_directories` is also left out: it is a `NotImplementedError` stub.
  The restructuring and plotting scripts are left out because they copy files
  and draw.
- Utilities.MergeParentAndBasename: its own contract states only the
  TypeError case. Its result is given by MergeJoinsLastTwoComponents. The
  `.replace(os.sep, '_')` step never changes a component and is modelled for
  '/' only.
- Utilities.FileSystem.GetDestDirFromCsvFile and
  Utilities.FileSystem.CheckedDestDir take the gas list as a parameter. The
  call as the code makes it is the one with `DestGassesAsWritten`, the "NO2"
  list of utilities.py:194. The corrected call uses `Gasses`. See Findings.
- The test at assignment2/tests/test_utilities.py:150-166 uses file names such
  as "src_agriculture_H2.csv". The code rejects their stems because they are
  not gas formulas. The model follows the code.
- The HTML parsing in `extract_anniversaries` is left out, because it uses
  BeautifulSoup. A paragraph is its first link with an href and its joined
  stripped text. Fetching pages, tables, plots and markdown output are also
  left out.
- Olympics.MedalCounts: a results dict is the sequence of its items. Python
  dict keys are distinct, but the model does not require it. The lemmas hold
  either way.
- Olympics.FindBestCountryInSport: a count is an `int`. Other comparable
  Python values are not modelled. The default `medal="Gold"`
  (fetch_olympic_statistics.py:189) is not modelled as a default: callers
  pass the medal explicitly.
- NumpyFilters.NumpyColor2Sepia: the default `k=1` (numpy_filters.py:26) is
  not modelled as a default. Callers pass `k`, and FullSepiaMatchesReference
  covers `k = 1`.
- Utilities.ToPath: `os.PathLike` objects other than a `Path` are not
  modelled. `Path()` accepts them in `is_gas_csv`, `get_diagnostics` and
  `get_dest_dir_from_csv_file`. `PathArg` has no variant for them, so such
  an argument falls under `OtherObject` and gets TypeError.
- assignment5 (`strompris.py`, `app.py`) is left out. It is HTTP, pandas,
  Altair and FastAPI code.
- The second `test_color2sepia` in assignment3/test/test_numba.py:31-55 repeats
  the first.

## Findings

| source | as written | input that shows it | evidently intended | confidence | as-written member | corrected member |
|---|---|---|---|---|---|---|
| assignment2/analytic_tools/utilities.py:194 | the gas list of `get_dest_dir_from_csv_file` is ['CO2', 'CH4', 'NO2', 'SF6', 'H2'] | an existing file "N2O.csv" under an existing parent: `is_gas_csv` accepts it, but the call raises ValueError; "NO2.csv" gets a "gas_NO2" directory (AsWrittenAcceptsNO2); both over DestDirAsWritten, while the corrected DestDir uses the list of line 152 | "N2O", as in the docstring at lines 163-164 and in `is_gas_csv` at line 152 | high (not executed) | Utilities.AsWrittenRefusesN2O | Utilities.DestDirAcceptsExactlyGasFiles |
